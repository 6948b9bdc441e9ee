/** Merging a streamed delta into the text received so far (transforms.rs). */
module MergeDelta {
  import opened Basics
  import opened Utf8

  predicate StartsWith(s: seq<Byte>, prefix: seq<Byte>) {
    prefix <= s
  }

  predicate EndsWith(s: seq<Byte>, suffix: seq<Byte>) {
    |suffix| <= |s| && s[|s| - |suffix|..] == suffix
  }

  /** The last k bytes of e are the first k bytes of d. */
  predicate Overlaps(e: seq<Byte>, d: seq<Byte>, k: nat) {
    k <= |e| && k <= |d| && e[|e| - k..] == d[..k]
  }

  /** w holds all of e at its front and all of d at its back. */
  predicate Covers(w: seq<Byte>, e: seq<Byte>, d: seq<Byte>) {
    StartsWith(w, e) && EndsWith(w, d)
  }

  /** w covers e and d, and no byte string, valid text or not, does so with fewer bytes. */
  ghost predicate Shortest(w: seq<Byte>, e: seq<Byte>, d: seq<Byte>) {
    Covers(w, e, d) && forall v: seq<Byte> :: Covers(v, e, d) ==> |w| <= |v|
  }

  /** The longest overlap of at most k bytes. */
  function LongestOverlap(e: seq<Byte>, d: seq<Byte>, k: nat): (o: nat)
    requires k <= |e| && k <= |d|
    ensures o <= k && Overlaps(e, d, o)
    ensures forall j :: o < j <= k ==> !Overlaps(e, d, j)
  {
    if k == 0 || Overlaps(e, d, k) then k else LongestOverlap(e, d, k - 1)
  }

  /** The specification knows nothing of characters: it glues at the longest overlap of all. */
  function Merged(e: seq<Byte>, d: seq<Byte>): seq<Byte> {
    e + d[LongestOverlap(e, d, Min(|e|, |d|))..]
  }

  /** Every string that covers both and is shorter than their concatenation shows an overlap. */
  lemma CoverShowsOverlap(w: seq<Byte>, e: seq<Byte>, d: seq<Byte>)
    requires Covers(w, e, d) && |w| <= |e| + |d|
    ensures Overlaps(e, d, |e| + |d| - |w|)
    ensures w == e + d[|e| + |d| - |w|..]
  {
    var k := |e| + |d| - |w|;
    assert e == w[..|e|] && d == w[|w| - |d|..];
    assert e[|e| - k..] == w[|w| - |d|..|e|] == d[..k];
    assert w == w[..|e|] + w[|e|..];
    assert d[k..] == w[|e|..];
  }

  lemma OverlapCovers(e: seq<Byte>, d: seq<Byte>, k: nat)
    requires Overlaps(e, d, k)
    ensures Covers(e + d[k..], e, d)
  {
    var w := e + d[k..];
    assert w[..|e|] == e;
    assert w[|w| - |d|..] == e[|e| - k..] + d[k..];
    assert d == d[..k] + d[k..];
  }

  /** The merge is a shortest cover. */
  lemma MergedIsShortest(e: seq<Byte>, d: seq<Byte>)
    ensures Shortest(Merged(e, d), e, d)
  {
    var o := LongestOverlap(e, d, Min(|e|, |d|));
    OverlapCovers(e, d, o);
    forall v: seq<Byte> | Covers(v, e, d)
      ensures |Merged(e, d)| <= |v|
    {
      if |v| < |e| + |d| - o {
        CoverShowsOverlap(v, e, d);
      }
    }
  }

  /** There is only one shortest cover, so being shortest says exactly what the merge is. */
  lemma ShortestIsMerged(w: seq<Byte>, e: seq<Byte>, d: seq<Byte>)
    ensures Shortest(w, e, d) <==> w == Merged(e, d)
  {
    MergedIsShortest(e, d);
    if Shortest(w, e, d) {
      CoverShowsOverlap(w, e, d);
      CoverShowsOverlap(Merged(e, d), e, d);
    }
  }

  /** Text never overlaps text in the middle of a character: trying the boundaries alone loses nothing. */
  lemma OverlapsMeetAtBoundaries(e: seq<Byte>, d: seq<Byte>, k: nat)
    requires Valid(e) && Valid(d) && Overlaps(e, d, k)
    ensures IsBoundary(d, k) && IsBoundary(e, |e| - k)
  {
    if k > 0 {
      var at := |e| - k;
      assert d[0] == d[..k][0] == e[at..][0] == e[at];
      assert CharLen(d) > 0;
      assert !Continuation(e[at]);
      BoundarySplits(e, at);
      BoundarySplits(d, k);
    }
  }

  /** The merge of two texts is text: no character is torn. */
  lemma MergedIsText(e: seq<Byte>, d: seq<Byte>)
    requires Valid(e) && Valid(d)
    ensures Valid(Merged(e, d))
  {
    var o := LongestOverlap(e, d, Min(|e|, |d|));
    OverlapsMeetAtBoundaries(e, d, o);
    BoundarySplits(d, o);
    ConcatValid(e, d[o..]);
  }

  /** A snapshot that extends the text replaces it; a delta already at the end changes nothing. */
  lemma SnapshotOrReplay(e: seq<Byte>, d: seq<Byte>)
    ensures Merged(e, d) == d <==> StartsWith(d, e)
    ensures Merged(e, d) == e <==> EndsWith(e, d)
  {
    MergedIsShortest(e, d);
    if StartsWith(d, e) {
      assert d[0..] == d;
      assert Covers(d, e, d);
      ShortestIsMerged(d, e, d);
    }
    if EndsWith(e, d) {
      assert Covers(e, e, d);
      ShortestIsMerged(e, e, d);
    }
  }

  /** Delivering the same delta twice is delivering it once. */
  lemma MergedTwice(e: seq<Byte>, d: seq<Byte>)
    ensures Merged(Merged(e, d), d) == Merged(e, d)
  {
    MergedIsShortest(e, d);
    SnapshotOrReplay(Merged(e, d), d);
  }

  /** No end of e is a start of d. */
  predicate Apart(e: seq<Byte>, d: seq<Byte>) {
    forall k :: 0 < k <= |e| && k <= |d| ==> !Overlaps(e, d, k)
  }

  /** A delta is simply appended exactly when no end of the text is a start of the delta. */
  lemma AppendedUnlessOverlapping(e: seq<Byte>, d: seq<Byte>)
    ensures Merged(e, d) == e + d <==> Apart(e, d)
  {
    var m := Min(|e|, |d|);
    var o := LongestOverlap(e, d, m);
    assert |Merged(e, d)| == |e| + |d| - o;
    if o == 0 {
      assert d[0..] == d;
    }
  }

  /** Merging every delivery in turn. */
  function MergedAll(text: seq<Byte>, deliveries: seq<seq<Byte>>): seq<Byte>
    decreases |deliveries|
  {
    if deliveries == [] then text else MergedAll(Merged(text, deliveries[0]), deliveries[1..])
  }

  function Concatenated(deliveries: seq<seq<Byte>>): seq<Byte>
    decreases |deliveries|
  {
    if deliveries == [] then [] else deliveries[0] + Concatenated(deliveries[1..])
  }

  /** No delta starts with an end of the text before it. */
  predicate NeverOverlap(text: seq<Byte>, deliveries: seq<seq<Byte>>)
    decreases |deliveries|
  {
    deliveries == [] || (Apart(text, deliveries[0]) && NeverOverlap(text + deliveries[0], deliveries[1..]))
  }

  lemma {:induction false} MergedAllNoLonger(text: seq<Byte>, deliveries: seq<seq<Byte>>)
    ensures |MergedAll(text, deliveries)| <= |text| + |Concatenated(deliveries)|
    decreases |deliveries|
  {
    if deliveries != [] {
      MergedAllNoLonger(Merged(text, deliveries[0]), deliveries[1..]);
    }
  }

  /** A stream of pieces comes out as their concatenation exactly when no piece overlaps the text before it. */
  lemma {:induction false} PiecesConcatenateExactly(text: seq<Byte>, deliveries: seq<seq<Byte>>)
    ensures MergedAll(text, deliveries) == text + Concatenated(deliveries) <==> NeverOverlap(text, deliveries)
    decreases |deliveries|
  {
    if deliveries == [] {
      assert text + [] == text;
    } else {
      var d, rest := deliveries[0], deliveries[1..];
      AppendedUnlessOverlapping(text, d);
      ConcatAssoc(text, d, Concatenated(rest));
      if Apart(text, d) {
        PiecesConcatenateExactly(text + d, rest);
      } else {
        MergedAllNoLonger(Merged(text, d), rest);
        MergedShorter(text, d);
      }
      hide Merged, Overlaps;
    }
  }

  lemma MergedShorter(e: seq<Byte>, d: seq<Byte>)
    requires !Apart(e, d)
    ensures |Merged(e, d)| < |e| + |d|
  {
    AppendedUnlessOverlapping(e, d);
    assert d[0..] == d;
  }

  /** A stream in which every delivery is a snapshot that has grown or the end of what was delivered before. */
  predicate Replays(text: seq<Byte>, deliveries: seq<seq<Byte>>, last: seq<Byte>)
    decreases |deliveries|
  {
    if deliveries == [] then
      text == last
    else if StartsWith(deliveries[0], text) then
      Replays(deliveries[0], deliveries[1..], last)
    else
      EndsWith(text, deliveries[0]) && Replays(text, deliveries[1..], last)
  }

  /** Whatever is repeated on the way, such a stream leaves exactly the last snapshot. */
  lemma {:induction false} ReplayedStreamEndsAtLast(text: seq<Byte>, deliveries: seq<seq<Byte>>, last: seq<Byte>)
    requires Replays(text, deliveries, last)
    ensures MergedAll(text, deliveries) == last
    decreases |deliveries|
  {
    if deliveries != [] {
      var d := deliveries[0];
      SnapshotOrReplay(text, d);
      ReplayedStreamEndsAtLast(Merged(text, d), deliveries[1..], last);
    }
  }

  /** Growing snapshots, folded from the empty text, give the last of them. */
  lemma SnapshotsFoldToLast(snapshots: seq<seq<Byte>>)
    requires snapshots != []
    requires forall k :: 0 < k < |snapshots| ==> StartsWith(snapshots[k], snapshots[k - 1])
    ensures MergedAll([], snapshots) == snapshots[|snapshots| - 1]
  {
    GrowingReplays([], snapshots);
    ReplayedStreamEndsAtLast([], snapshots, snapshots[|snapshots| - 1]);
  }

  lemma {:induction false} GrowingReplays(text: seq<Byte>, snapshots: seq<seq<Byte>>)
    requires snapshots != [] && StartsWith(snapshots[0], text)
    requires forall k :: 0 < k < |snapshots| ==> StartsWith(snapshots[k], snapshots[k - 1])
    ensures Replays(text, snapshots, snapshots[|snapshots| - 1])
    decreases |snapshots|
  {
    var rest := snapshots[1..];
    if rest != [] {
      forall k | 0 < k < |rest|
        ensures StartsWith(rest[k], rest[k - 1])
      {
        assert rest[k] == snapshots[k + 1] && rest[k - 1] == snapshots[k];
      }
      assert rest[0] == snapshots[1];
      GrowingReplays(snapshots[0], rest);
    }
  }

  /** Exactly the boundaries below a limit, in order. */
  ghost predicate ListsBoundaries(boundaries: seq<nat>, s: seq<Byte>, limit: nat) {
    && (forall i: nat :: i in boundaries <==> i < limit && IsBoundary(s, i))
    && (forall i, j :: 0 <= i < j < |boundaries| ==> boundaries[i] < boundaries[j])
  }

  lemma NextBoundary(boundaries: seq<nat>, s: seq<Byte>, at: nat, next: nat)
    requires ListsBoundaries(boundaries, s, at) && IsBoundary(s, at) && at < next
    requires forall i: nat :: at < i < next ==> !IsBoundary(s, i)
    ensures ListsBoundaries(boundaries + [at], s, next)
  {
    forall i: nat
      ensures i in boundaries + [at] <==> i < next && IsBoundary(s, i)
    {
      assert i in boundaries + [at] <==> i in boundaries || i == at;
    }
    forall i | 0 <= i < |boundaries|
      ensures boundaries[i] < at
    {
      assert boundaries[i] in boundaries;
    }
  }

  lemma NoBoundaryInside(s: seq<Byte>, at: nat, n: nat)
    requires at < |s| && Valid(s[at..]) && n == CharLen(s[at..])
    ensures 0 < n <= |s| - at && IsBoundary(s, at + n) && Valid(s[at + n..])
    ensures forall i: nat :: at < i < at + n ==> !IsBoundary(s, i)
  {
    HeadIsBoundary(s[at..], n);
    assert s[at..][n..] == s[at + n..];
    assert forall i :: at < i < at + n ==> s[i] == s[at..][i - at];
    assert n < |s| - at ==> s[at + n] == s[at..][n];
  }

  lemma TextStart(s: Text)
    ensures IsBoundary(s, 0) && IsBoundary(s, |s|) && Valid(s[0..]) && ListsBoundaries([], s, 0)
  {
    assert s[0..] == s;
  }

  /** char_indices, with the length of the text at the end. */
  method CharBoundaries(s: Text) returns (boundaries: seq<nat>)
    ensures ListsBoundaries(boundaries, s, |s| + 1)
  {
    hide ListsBoundaries, IsBoundary, Valid;
    boundaries := [];
    TextStart(s);
    var at := 0;
    while at < |s|
      invariant at <= |s| && IsBoundary(s, at) && Valid(s[at..])
      invariant ListsBoundaries(boundaries, s, at)
    {
      var n := CharLen(s[at..]);
      NoBoundaryInside(s, at, n);
      NextBoundary(boundaries, s, at, at + n);
      boundaries := boundaries + [at];
      at := at + n;
    }
    NextBoundary(boundaries, s, at, at + 1);
    boundaries := boundaries + [|s|];
  }

  /** merge_delta_text: the boundaries of the delta, longest first. */
  method MergeDeltaText(existing: Text, incoming: Text) returns (merged: Text)
    ensures merged == Merged(existing, incoming)
    ensures Shortest(merged, existing, incoming)
  {
    MergedIsShortest(existing, incoming);
    SnapshotOrReplay(existing, incoming);
    MergedIsText(existing, incoming);
    MergedAt(existing, incoming);
    hide Shortest, Valid, ListsBoundaries, LongestOverlap, Merged, Overlaps, EndsWith;
    if incoming == [] {
      return existing;
    }
    if StartsWith(incoming, existing) {
      return incoming;
    }
    if EndsWith(existing, incoming) {
      return existing;
    }
    var boundaries := CharBoundaries(incoming);
    var most := Min(|existing|, |incoming|);
    var n := |boundaries|;
    while n > 0
      invariant 0 <= n <= |boundaries|
      invariant forall j :: n <= j < |boundaries| && 0 < boundaries[j] ==> !Overlaps(existing, incoming, boundaries[j])
    {
      n := n - 1;
      var overlap := boundaries[n];
      BoundaryInRange(incoming, boundaries, n);
      OverlapIsEnd(existing, incoming, overlap);
      if overlap == 0 || overlap > most {
        continue;
      }
      if EndsWith(existing, incoming[..overlap]) {
        OnlyBoundaryOverlaps(existing, incoming, boundaries, n);
        return existing + incoming[overlap..];
      }
    }
    NoBoundaryOverlaps(existing, incoming, boundaries);
    return existing + incoming;
  }

  lemma BoundaryInRange(d: Text, boundaries: seq<nat>, n: nat)
    requires ListsBoundaries(boundaries, d, |d| + 1) && n < |boundaries|
    ensures boundaries[n] <= |d|
  {
    assert boundaries[n] in boundaries;
  }

  lemma OverlapIsEnd(e: seq<Byte>, d: seq<Byte>, k: nat)
    requires k <= |d|
    ensures Overlaps(e, d, k) <==> k <= |e| && EndsWith(e, d[..k])
  {
  }

  lemma MergedAt(e: seq<Byte>, d: seq<Byte>)
    ensures Merged(e, d) == e + d[LongestOverlap(e, d, Min(|e|, |d|))..]
    ensures EndsWith(e, [])
  {
    assert e[|e|..] == [];
  }

  lemma OnlyBoundaryOverlaps(e: Text, d: Text, boundaries: seq<nat>, n: nat)
    requires ListsBoundaries(boundaries, d, |d| + 1)
    requires n < |boundaries| && Overlaps(e, d, boundaries[n])
    requires forall j :: n < j < |boundaries| && 0 < boundaries[j] ==> !Overlaps(e, d, boundaries[j])
    ensures LongestOverlap(e, d, Min(|e|, |d|)) == boundaries[n]
  {
    var o := LongestOverlap(e, d, Min(|e|, |d|));
    OverlapsMeetAtBoundaries(e, d, o);
    assert o in boundaries;
    var j :| 0 <= j < |boundaries| && boundaries[j] == o;
  }

  lemma NoBoundaryOverlaps(e: Text, d: Text, boundaries: seq<nat>)
    requires ListsBoundaries(boundaries, d, |d| + 1)
    requires forall j :: 0 <= j < |boundaries| && 0 < boundaries[j] ==> !Overlaps(e, d, boundaries[j])
    ensures Merged(e, d) == e + d
  {
    var o := LongestOverlap(e, d, Min(|e|, |d|));
    OverlapsMeetAtBoundaries(e, d, o);
    assert o in boundaries;
    assert d[0..] == d;
  }
}
