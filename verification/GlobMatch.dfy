// Wildcard matching of file names (blocks/data/src/read_collection.rs): the
// greedy matcher against the meaning of a pattern.
module GlobMatch {
  import opened Pipelines

  /** What a pattern means: `*` stands for any characters, anything else for itself. */
  predicate Wild(pattern: string, name: string) {
    if pattern == [] then name == []
    else if pattern[0] == '*' then Wild(pattern[1..], name) || (name != [] && Wild(pattern, name[1..]))
    else name != [] && name[0] == pattern[0] && Wild(pattern[1..], name[1..])
  }

  /** The segments between the stars; one more than there are stars. */
  function Split(pattern: string): (parts: seq<string>)
    ensures |parts| >= 1
  {
    if pattern == [] then [[]]
    else
      var rest := Split(pattern[1..]);
      if pattern[0] == '*' then [[]] + rest else [[pattern[0]] + rest[0]] + rest[1..]
  }

  predicate OccursAt(name: string, part: string, k: nat) {
    k + |part| <= |name| && name[k..k + |part|] == part
  }

  predicate EndsWith(name: string, part: string) {
    |part| <= |name| && OccursAt(name, part, |name| - |part|)
  }

  /** Leftmost occurrence at or after a position. */
  function Find(name: string, part: string, from: nat): (at: Option<nat>)
    requires from <= |name|
    ensures at.Some? ==> from <= at.value && OccursAt(name, part, at.value)
    ensures at.Some? ==> forall k: nat :: from <= k < at.value ==> !OccursAt(name, part, k)
    ensures at.None? ==> forall k: nat :: from <= k ==> !OccursAt(name, part, k)
    decreases |name| - from
  {
    if OccursAt(name, part, from) then Some(from)
    else if from == |name| then None
    else Find(name, part, from + 1)
  }

  /** Where the inner segments end when each is taken at its leftmost occurrence. */
  function GreedyEnd(inner: seq<string>, name: string, pos: nat): (e: Option<nat>)
    requires pos <= |name|
    ensures e.Some? ==> pos <= e.value <= |name|
  {
    if inner == [] then Some(pos)
    else
      match Find(name, inner[0], pos)
      case Some(at) => GreedyEnd(inner[1..], name, at + |inner[0]|)
      case None => None
  }

  /** The end of the greedy scan: after the first segment, then the inner ones. */
  function ScanEnd(parts: seq<string>, name: string): Option<nat>
    requires |parts| >= 2
  {
    if OccursAt(name, parts[0], 0) then GreedyEnd(Between(parts, 1), name, |parts[0]|) else None
  }

  /** The inner segments from position i on. */
  function Between(parts: seq<string>, i: nat): seq<string> {
    if i + 1 < |parts| then parts[i..|parts| - 1] else []
  }

  /** What the matcher accepts. */
  predicate Accepts(parts: seq<string>, name: string)
    requires |parts| >= 1
  {
    if |parts| == 1 then OccursAt(name, parts[0], 0)
    else ScanEnd(parts, name).Some? && EndsWith(name, parts[|parts| - 1])
  }

  /** What the segments from i on still demand when the scan has come to `pos`. */
  predicate Remaining(parts: seq<string>, i: nat, name: string, pos: nat)
    requires |parts| >= 1 && i <= |parts| && pos <= |name|
  {
    if i == 0 then Accepts(parts, name)
    else if i == |parts| then true
    else GreedyEnd(Between(parts, i), name, pos).Some? && EndsWith(name, parts[|parts| - 1])
  }

  method Matches(pattern: string, name: string) returns (r: bool)
    ensures r <==> Accepts(Split(pattern), name)
  {
    var parts := Split(pattern);
    var pos: nat := 0;
    for i := 0 to |parts|
      invariant pos <= |name| && (i == 0 ==> pos == 0)
      invariant Accepts(parts, name) <==> Remaining(parts, i, name, pos)
    {
      var part := parts[i];
      if part == [] {
        ScanEmpty(parts, i, name, pos);
        continue;
      }
      if i == 0 {
        ScanFirst(parts, name);
        if !OccursAt(name, part, 0) {
          return false;
        }
        pos := |part|;
      } else if i == |parts| - 1 {
        if !EndsWith(name, part) {
          return false;
        }
      } else {
        ScanInner(parts, i, name, pos);
        match Find(name, part, pos) {
          case Some(at) => pos := at + |part|;
          case None => return false;
        }
      }
    }
    r := true;
  }

  lemma ScanFirst(parts: seq<string>, name: string)
    requires |parts| >= 1
    ensures Accepts(parts, name) <==> OccursAt(name, parts[0], 0) && Remaining(parts, 1, name, |parts[0]|)
  {
  }

  lemma ScanInner(parts: seq<string>, i: nat, name: string, pos: nat)
    requires 0 < i < |parts| - 1 && pos <= |name|
    ensures Remaining(parts, i, name, pos) <==>
            Find(name, parts[i], pos).Some? &&
              Remaining(parts, i + 1, name, Find(name, parts[i], pos).value + |parts[i]|)
  {
    GreedyUnfolds(parts, i, name, pos);
  }

  lemma ScanEmpty(parts: seq<string>, i: nat, name: string, pos: nat)
    requires i < |parts| && parts[i] == [] && pos <= |name| && (i == 0 ==> pos == 0)
    ensures Remaining(parts, i, name, pos) <==> Remaining(parts, i + 1, name, pos)
  {
    EmptyOccurs(name, pos);
    if i == 0 {
      ScanFirst(parts, name);
    } else if i < |parts| - 1 {
      ScanInner(parts, i, name, pos);
    }
  }

  lemma GreedyUnfolds(parts: seq<string>, i: nat, name: string, pos: nat)
    requires i + 1 < |parts| && pos <= |name|
    ensures GreedyEnd(Between(parts, i), name, pos) ==
            match Find(name, parts[i], pos)
            case Some(at) => GreedyEnd(Between(parts, i + 1), name, at + |parts[i]|)
            case None => None
  {
    assert Between(parts, i)[0] == parts[i] && Between(parts, i)[1..] == Between(parts, i + 1);
  }

  lemma EmptyOccurs(name: string, pos: nat)
    requires pos <= |name|
    ensures OccursAt(name, [], 0) && EndsWith(name, []) && Find(name, [], pos) == Some(pos)
  {
    assert OccursAt(name, [], pos);
  }

  lemma {:induction false} SplitWithoutStar(pattern: string)
    ensures |Split(pattern)| == 1 <==> '*' !in pattern
    ensures |Split(pattern)| == 1 ==> Split(pattern) == [pattern]
  {
    if pattern != [] {
      SplitWithoutStar(pattern[1..]);
      assert pattern == [pattern[0]] + pattern[1..];
    }
  }

  // ---- Segments ----------------------------------------------------------------------

  /** The segments in order, the first at `pos` and the last at the end. */
  ghost predicate Anchored(parts: seq<string>, name: string, pos: nat)
    requires |parts| >= 1
    decreases |parts|, 0
  {
    && OccursAt(name, parts[0], pos)
    && if |parts| == 1 then pos + |parts[0]| == |name| else Floating(parts[1..], name, pos + |parts[0]|)
  }

  /** The segments in order, the first at or after `pos` and the last at the end. */
  ghost predicate Floating(parts: seq<string>, name: string, pos: nat)
    requires |parts| >= 1
    decreases |parts|, 1
  {
    exists k: nat :: k >= pos && Anchored(parts, name, k)
  }

  lemma StarFirst(rest: seq<string>, name: string, pos: nat)
    requires |rest| >= 1 && pos <= |name|
    ensures Anchored([[]] + rest, name, pos) <==> Anchored(rest, name, pos) || Floating(rest, name, pos + 1)
    ensures pos == |name| ==> !Floating(rest, name, pos + 1)
  {
    assert ([[]] + rest)[1..] == rest && OccursAt(name, [], pos);
    if Floating(rest, name, pos) {
      var k := FloatingAt(rest, name, pos);
    }
    if Floating(rest, name, pos + 1) {
      FloatingEarlier(rest, name, pos + 1, pos);
      var k := FloatingAt(rest, name, pos + 1);
    }
  }

  lemma FloatingAt(rest: seq<string>, name: string, pos: nat) returns (k: nat)
    requires |rest| >= 1 && Floating(rest, name, pos)
    ensures k >= pos && Anchored(rest, name, k)
  {
    k :| k >= pos && Anchored(rest, name, k);
  }

  lemma FloatingEarlier(rest: seq<string>, name: string, p: nat, q: nat)
    requires |rest| >= 1 && q <= p && Floating(rest, name, p)
    ensures Floating(rest, name, q)
  {
    var k := FloatingAt(rest, name, p);
  }

  lemma OccursOneByOne(name: string, c: char, part: string, pos: nat)
    ensures OccursAt(name, [c] + part, pos) <==> pos < |name| && name[pos] == c && OccursAt(name, part, pos + 1)
  {
    if pos + 1 + |part| <= |name| {
      assert name[pos..pos + 1 + |part|] == [name[pos]] + name[pos + 1..pos + 1 + |part|];
    }
  }

  /** A pattern means its segments in order with arbitrary gaps. */
  lemma {:induction false} WildIsAnchored(pattern: string, name: string, pos: nat)
    requires pos <= |name|
    ensures Wild(pattern, name[pos..]) <==> Anchored(Split(pattern), name, pos)
    decreases |pattern| + |name| - pos
  {
    if pos < |name| { assert name[pos..][0] == name[pos] && name[pos..][1..] == name[pos + 1..]; }
    if pattern == [] {
      assert OccursAt(name, [], pos);
    } else {
      var rest := Split(pattern[1..]);
      if pattern[0] == '*' {
        WildIsAnchored(pattern[1..], name, pos);
        StarFirst(rest, name, pos);
        if pos < |name| {
          WildIsAnchored(pattern, name, pos + 1);
          StarFirst(rest, name, pos + 1);
        }
      } else {
        OccursOneByOne(name, pattern[0], rest[0], pos);
        assert Split(pattern)[1..] == rest[1..];
        if pos < |name| { WildIsAnchored(pattern[1..], name, pos + 1); }
      }
    }
  }

  lemma FloatingUnfolds(part: string, rest: seq<string>, name: string, pos: nat)
    requires |rest| >= 1
    ensures Floating([part] + rest, name, pos) <==>
            exists k: nat :: k >= pos && OccursAt(name, part, k) && Floating(rest, name, k + |part|)
  {
    var parts := [part] + rest;
    assert parts[1..] == rest;
    forall k: nat ensures Anchored(parts, name, k) <==> OccursAt(name, part, k) && Floating(rest, name, k + |part|) {}
  }

  /** Taking a segment at its leftmost occurrence loses no match. */
  lemma LeftmostSuffices(part: string, rest: seq<string>, name: string, pos: nat)
    requires |rest| >= 1 && pos <= |name|
    ensures var at := Find(name, part, pos);
            Floating([part] + rest, name, pos) <==> at.Some? && Floating(rest, name, at.value + |part|)
  {
    FloatingUnfolds(part, rest, name, pos);
    var at := Find(name, part, pos);
    if Floating([part] + rest, name, pos) {
      var k: nat :| k >= pos && OccursAt(name, part, k) && Floating(rest, name, k + |part|);
      FloatingEarlier(rest, name, k + |part|, at.value + |part|);
    }
  }

  lemma LastAnywhere(last: string, name: string, pos: nat)
    ensures Floating([last], name, pos) <==> pos + |last| <= |name| && EndsWith(name, last)
  {
    if pos + |last| <= |name| && EndsWith(name, last) {
      assert Anchored([last], name, |name| - |last|);
    }
  }

  /** The exchange argument over all inner segments. */
  lemma {:induction false} GreedyIsComplete(inner: seq<string>, last: string, name: string, pos: nat)
    requires pos <= |name|
    ensures Floating(inner + [last], name, pos) <==>
            GreedyEnd(inner, name, pos).Some? && GreedyEnd(inner, name, pos).value + |last| <= |name| &&
              EndsWith(name, last)
    decreases |inner|
  {
    if inner == [] {
      assert [] + [last] == [last];
      LastAnywhere(last, name, pos);
    } else {
      assert inner + [last] == [inner[0]] + (inner[1..] + [last]);
      LeftmostSuffices(inner[0], inner[1..] + [last], name, pos);
      var at := Find(name, inner[0], pos);
      if at.Some? {
        GreedyIsComplete(inner[1..], last, name, at.value + |inner[0]|);
      }
    }
  }

  /** The last segment begins at or after the end of the scan; without a star,
      nothing follows the pattern. */
  predicate LastFits(parts: seq<string>, name: string)
    requires |parts| >= 1 && Accepts(parts, name)
  {
    if |parts| == 1 then |name| == |parts[0]|
    else ScanEnd(parts, name).value + |parts[|parts| - 1]| <= |name|
  }

  /** The matcher has no false negatives, and its acceptance is a true match
      exactly when the last segment fits behind the scan. */
  lemma MatchIff(pattern: string, name: string)
    ensures var parts := Split(pattern);
            Wild(pattern, name) <==> Accepts(parts, name) && LastFits(parts, name)
  {
    assert name[0..] == name;
    WildIsAnchored(pattern, name, 0);
    SplitWithoutStar(pattern);
    var parts := Split(pattern);
    if |parts| > 1 && OccursAt(name, parts[0], 0) {
      var inner, last := Between(parts, 1), parts[|parts| - 1];
      GreedyIsComplete(inner, last, name, |parts[0]|);
      assert parts[1..] == inner + [last];
    }
  }

  lemma {:induction false} SplitAtLastStar(front: string, last: string)
    requires '*' !in last
    ensures Split(front + "*" + last) == Split(front) + [last]
  {
    SplitWithoutStar(last);
    var pattern := front + "*" + last;
    if front == [] {
      assert pattern[0] == '*' && pattern[1..] == last;
    } else {
      SplitAtLastStar(front[1..], last);
      assert pattern[0] == front[0] && pattern[1..] == front[1..] + "*" + last;
    }
  }

  lemma EndsWithMeans(name: string, part: string)
    ensures EndsWith(name, part) <==> |part| <= |name| && name[|name| - |part|..] == part
    ensures OccursAt(name, part, 0) <==> part <= name
  {
    if |part| <= |name| { assert name[|name| - |part|..] == name[|name| - |part|..|name| - |part| + |part|]; }
  }

  /** The last segment only has to stand at the end. */
  lemma AcceptsLast(front: seq<string>, last: string, name: string)
    requires |front| >= 1
    ensures Accepts(front + [last], name) <==> Accepts(front + [[]], name) && EndsWith(name, last)
    ensures Accepts(front + [[]], name) ==> LastFits(front + [[]], name)
  {
    var parts, open := front + [last], front + [[]];
    assert parts[0] == open[0] && Between(parts, 1) == Between(open, 1);
    assert ScanEnd(parts, name) == ScanEnd(open, name);
    EmptyOccurs(name, 0);
  }

  /** What the matcher accepts, without a word about scanning: names that the
      pattern up to its last star matches, and that end with what follows it. */
  lemma AcceptsIff(front: string, last: string, name: string)
    requires '*' !in last
    ensures Accepts(Split(front + "*" + last), name) <==>
            Wild(front + "*", name) && |last| <= |name| && name[|name| - |last|..] == last
  {
    SplitAtLastStar(front, last);
    SplitAtLastStar(front, []);
    assert front + "*" + [] == front + "*";
    AcceptsLast(Split(front), last, name);
    MatchIff(front + "*", name);
    EndsWithMeans(name, last);
  }

  /** Without a star it accepts all names that begin with the pattern. */
  lemma StarFreeAccepts(pattern: string, name: string)
    requires '*' !in pattern
    ensures Accepts(Split(pattern), name) <==> pattern <= name
  {
    SplitWithoutStar(pattern);
    EndsWithMeans(name, pattern);
  }

  /** The first and last segments may overlap in what the matcher accepts:
      "a*a" takes "a", which is no match. */
  lemma OverlapAccepted()
    ensures Accepts(Split("a*a"), "a") && !Wild("a*a", "a")
  {
    assert Split("a") == ["a"] by { SplitWithoutStar("a"); }
    assert "a*a"[1..] == "*a" && "*a"[1..] == "a";
    assert Split("*a") == ["", "a"] && Split("a*a") == ["a", "a"];
    MatchIff("a*a", "a");
  }
}
