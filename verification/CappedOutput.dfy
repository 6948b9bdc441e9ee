/** Byte-capped capture of process output, and how a chain merges the captures of its steps. */
module CappedOutput {
  import opened Basics
  import opened Utf8

  // ----- appending under a cap -----

  /** How many bytes of chunk fit into remaining bytes without cutting a character. */
  function Cut(chunk: Text, remaining: nat): (end: nat)
    ensures end <= |chunk| && end <= remaining && IsBoundary(chunk, end)
    ensures forall j :: end < j <= |chunk| && j <= remaining ==> !IsBoundary(chunk, j)
  {
    if |chunk| <= remaining then |chunk| else BoundaryAtOrBelow(chunk, remaining)
  }

  function BoundaryAtOrBelow(chunk: Text, i: nat): (end: nat)
    requires i <= |chunk|
    ensures end <= i && IsBoundary(chunk, end)
    ensures forall j :: end < j <= i ==> !IsBoundary(chunk, j)
  {
    if IsBoundary(chunk, i) then i else BoundaryAtOrBelow(chunk, i - 1)
  }

  function Room(target: Text, max: nat): nat {
    if |target| <= max then max - |target| else 0
  }

  function Appended(target: Text, chunk: Text, max: nat): seq<Byte> {
    target + chunk[..Cut(chunk, Room(target, max))]
  }

  /** append_capped, with its backwards search for a character boundary. */
  method AppendCapped(target: Text, chunk: Text, max: nat, truncated: bool) returns (target': Text, truncated': bool)
    ensures target' == Appended(target, chunk, max)
    ensures truncated' <==> truncated || |target'| < |target| + |chunk|
  {
    var remaining := Room(target, max);
    if remaining == 0 {
      assert chunk[..0] == [] && target + [] == target;
      return target, truncated || |chunk| > 0;
    }
    if |chunk| <= remaining {
      assert chunk[..|chunk|] == chunk;
      ConcatValid(target, chunk);
      return target + chunk, truncated;
    }
    var end: nat := remaining;
    while !IsBoundary(chunk, end)
      invariant end <= remaining
      invariant BoundaryAtOrBelow(chunk, remaining) == BoundaryAtOrBelow(chunk, end)
      decreases end
    {
      end := end - 1;
    }
    BoundarySplits(chunk, end);
    ConcatValid(target, chunk[..end]);
    return target + chunk[..end], true;
  }

  /** The merged text stays valid and under the cap; a cut gives up at most three bytes of room. */
  lemma AppendedIsSound(target: Text, chunk: Text, max: nat)
    requires |target| <= max
    ensures var merged := Appended(target, chunk, max);
      && Valid(merged) && |merged| <= max
      && (|merged| < |target| + |chunk| <==> |target| + |chunk| > max)
      && (|merged| < |target| + |chunk| ==> max - |merged| <= 3)
  {
    var end := Cut(chunk, Room(target, max));
    BoundarySplits(chunk, end);
    ConcatValid(target, chunk[..end]);
    if |chunk| > Room(target, max) {
      BoundaryNear(chunk, Room(target, max));
    }
  }

  // ----- captured output -----

  datatype Output = Output(
    exitCode: Option<int>, timedOut: bool,
    stdout: Text, stderr: Text, truncatedStdout: bool, truncatedStderr: bool)

  /** The output merged so far; a fresh one is CapturedOutput::default(). */
  class CapturedOutput {
    var exitCode: Option<int>
    var timedOut: bool
    var stdout: Text
    var stderr: Text
    var truncatedStdout: bool
    var truncatedStderr: bool

    constructor ()
      ensures Value() == Output(None, false, [], [], false, false)
    {
      exitCode, timedOut := None, false;
      stdout, stderr := [], [];
      truncatedStdout, truncatedStderr := false, false;
    }

    function Value(): Output
      reads this
    {
      Output(exitCode, timedOut, stdout, stderr, truncatedStdout, truncatedStderr)
    }

    method Push(output: Output, max: nat)
      modifies this
      ensures Value() == Pushed(old(Value()), output, max)
      ensures exitCode == output.exitCode && timedOut == (old(timedOut) || output.timedOut)
      ensures stdout == Appended(old(stdout), output.stdout, max) && stderr == Appended(old(stderr), output.stderr, max)
    {
      hide Appended, Valid, Pushed;
      ghost var before := Value();
      exitCode := output.exitCode;
      timedOut := timedOut || output.timedOut;
      stdout, truncatedStdout := AppendCapped(stdout, output.stdout, max, truncatedStdout);
      stderr, truncatedStderr := AppendCapped(stderr, output.stderr, max, truncatedStderr);
      PushedFields(before, output, max, stdout, stderr);
      truncatedStdout := truncatedStdout || output.truncatedStdout;
      truncatedStderr := truncatedStderr || output.truncatedStderr;
    }
  }

  lemma PushedIsText(target: Text, chunk: Text, max: nat)
    ensures Valid(Appended(target, chunk, max))
  {
    var end := Cut(chunk, Room(target, max));
    BoundarySplits(chunk, end);
    ConcatValid(target, chunk[..end]);
  }

  /** One stream of a merge: its text and whether anything of it is missing. */
  datatype Stream = Stream(text: Text, truncated: bool)

  function PushedStream(s: Stream, chunk: Stream, max: nat): Stream {
    PushedIsText(s.text, chunk.text, max);
    var text := Appended(s.text, chunk.text, max);
    Stream(text, s.truncated || |text| < |s.text| + |chunk.text| || chunk.truncated)
  }

  function Stdout(o: Output): Stream {
    Stream(o.stdout, o.truncatedStdout)
  }

  function Stderr(o: Output): Stream {
    Stream(o.stderr, o.truncatedStderr)
  }

  function Pushed(c: Output, o: Output, max: nat): Output {
    var out := PushedStream(Stdout(c), Stdout(o), max);
    var err := PushedStream(Stderr(c), Stderr(o), max);
    Output(o.exitCode, c.timedOut || o.timedOut, out.text, err.text, out.truncated, err.truncated)
  }

  /** Both streams of a push at once. */
  lemma PushedFields(c: Output, o: Output, max: nat, out: Text, err: Text)
    requires out == Appended(c.stdout, o.stdout, max) && err == Appended(c.stderr, o.stderr, max)
    ensures Pushed(c, o, max) == Output(o.exitCode, c.timedOut || o.timedOut, out, err,
                                        c.truncatedStdout || |out| < |c.stdout| + |o.stdout| || o.truncatedStdout,
                                        c.truncatedStderr || |err| < |c.stderr| + |o.stderr| || o.truncatedStderr)
  {
  }

  // ----- merging a whole chain -----

  /** The stream after all steps, in order. */
  function Merged(chunks: seq<Stream>, max: nat): Stream {
    if chunks == [] then Stream([], false)
    else PushedStream(Merged(chunks[..|chunks| - 1], max), chunks[|chunks| - 1], max)
  }

  /** Everything the steps captured, uncapped. */
  function Complete(chunks: seq<Stream>): (t: Text) {
    if chunks == [] then []
    else
      ConcatValid(Complete(chunks[..|chunks| - 1]), chunks[|chunks| - 1].text);
      Complete(chunks[..|chunks| - 1]) + chunks[|chunks| - 1].text
  }

  /** One more chunk, when the stream so far is whole or flagged. */
  lemma PushedIsLosslessOrFlagged(s: Stream, complete: Text, chunk: Stream, max: nat)
    requires |s.text| <= max && |s.text| <= |complete|
    requires if |complete| <= max then s.text == complete else s.truncated && |s.text| >= max - 3
    ensures var pushed, whole := PushedStream(s, chunk, max), complete + chunk.text;
      && |pushed.text| <= max && |pushed.text| <= |whole|
      && (pushed.truncated <==> s.truncated || chunk.truncated || |whole| > max)
      && (if |whole| <= max then pushed.text == whole else |pushed.text| >= max - 3)
  {
    AppendedIsSound(s.text, chunk.text, max);
    assert chunk.text[..|chunk.text|] == chunk.text;
  }

  /**
   The merged stream is valid text within the cap; it is flagged exactly when some step was
   flagged or the steps together exceed the cap; unflagged, it is everything the steps wrote;
   and all the cuts together waste at most three bytes of the cap.
  */
  lemma {:induction false} MergedIsLosslessOrFlagged(chunks: seq<Stream>, max: nat)
    ensures |Merged(chunks, max).text| <= max
    ensures Merged(chunks, max).truncated <==>
      |Complete(chunks)| > max || exists i :: 0 <= i < |chunks| && chunks[i].truncated
    ensures |Complete(chunks)| <= max ==> Merged(chunks, max).text == Complete(chunks)
    ensures |Complete(chunks)| > max ==> |Merged(chunks, max).text| >= max - 3
    ensures |Merged(chunks, max).text| <= |Complete(chunks)|
  {
    if chunks != [] {
      var front := chunks[..|chunks| - 1];
      var last := chunks[|chunks| - 1];
      MergedIsLosslessOrFlagged(front, max);
      PushedIsLosslessOrFlagged(Merged(front, max), Complete(front), last, max);
      assert forall i :: 0 <= i < |front| ==> front[i] == chunks[i];
      hide PushedStream;
    }
  }

  lemma UnflaggedIsComplete(chunks: seq<Stream>, max: nat)
    ensures var merged := Merged(chunks, max);
      && |merged.text| <= max
      && (!merged.truncated <==> |Complete(chunks)| <= max && forall i :: 0 <= i < |chunks| ==> !chunks[i].truncated)
      && (!merged.truncated ==> merged.text == Complete(chunks))
  {
    MergedIsLosslessOrFlagged(chunks, max);
    hide Merged, Complete;
  }

  // ----- when the merge is a prefix -----

  /** What comes next in whole does not fit behind text: whatever more is written, the merge has stopped there. */
  predicate Stuck(text: seq<Byte>, whole: seq<Byte>, max: nat) {
    && text <= whole && |text| <= max && |text| < |whole|
    && CharLen(whole[|text|..]) > max - |text|
  }

  /**
   Chunk j comes too late: the steps before it exceed the cap, and yet its first character fits into what
   the last whole character of theirs under the cap leaves of it.
  */
  predicate FitsLate(chunks: seq<Stream>, max: nat, j: nat)
    requires j < |chunks|
  {
    IsLate(Complete(chunks[..j]), chunks[j].text, max)
  }

  predicate IsLate(before: Text, chunk: Text, max: nat) {
    |before| > max && chunk != [] && CharLen(chunk) <= max - Cut(before, max)
  }

  /** Where the merge is stuck is where the complete text would be cut. */
  lemma StuckIsCut(text: Text, whole: Text, max: nat)
    requires Stuck(text, whole, max) && |whole| > max
    ensures |text| == Cut(whole, max)
  {
    var n, next := |text|, whole[|text|..];
    assert whole[..n] == text;
    BoundarySplits(whole, n);
    assert IsBoundary(whole, n);
    assert forall at: nat :: 0 < at < CharLen(next) ==> whole[n + at] == next[at];
  }

  /** Some step before the last one came too late. */
  lemma FitsLateFront(chunks: seq<Stream>, max: nat)
    requires chunks != []
    ensures var n := |chunks| - 1;
      (exists j: nat :: j < |chunks| && FitsLate(chunks, max, j)) <==>
        (exists j: nat :: j < n && FitsLate(chunks[..n], max, j)) || FitsLate(chunks, max, n)
  {
    var n := |chunks| - 1;
    forall j: nat | j < n
      ensures FitsLate(chunks[..n], max, j) <==> FitsLate(chunks, max, j)
    {
      assert chunks[..n][..j] == chunks[..j];
    }
    hide FitsLate;
  }

  /** The character a cut stops at is too long for the room that is left. */
  lemma CutIsStuck(text: Text, chunk: Text, max: nat)
    requires |text| <= max && |text| + |chunk| > max
    ensures Stuck(Appended(text, chunk, max), text + chunk, max)
  {
    var room := max - |text|;
    var end := Cut(chunk, room);
    BoundarySplits(chunk, end);
    var rest := chunk[end..];
    assert (text + chunk)[|text| + end..] == rest;
    HeadIsBoundary(rest, CharLen(rest));
    assert end + CharLen(rest) < |chunk| ==> chunk[end + CharLen(rest)] == rest[CharLen(rest)];
    assert IsBoundary(chunk, end + CharLen(rest));
  }

  /** A chunk that does not begin in the room left adds nothing. */
  lemma TooLongAddsNothing(text: Text, chunk: Text, max: nat)
    requires |text| <= max && (chunk == [] || CharLen(chunk) > max - |text|)
    ensures Appended(text, chunk, max) == text
  {
    var end := Cut(chunk, max - |text|);
    assert chunk[..0] == [] && text + [] == text;
  }

  lemma StuckLonger(text: seq<Byte>, whole: seq<Byte>, more: seq<Byte>, max: nat)
    requires Stuck(text, whole, max) && Valid(whole[|text|..])
    ensures Stuck(text, whole + more, max)
  {
    DropConcat(whole, more, |text|);
    CharLenExtends(whole[|text|..], more);
  }

  /** Two characters of different length differ in their first byte. */
  lemma LateCharacterDiffers(text: Text, whole: Text, chunk: Text, max: nat)
    requires Stuck(text, whole, max) && chunk != [] && CharLen(chunk) <= max - |text|
    ensures !(Appended(text, chunk, max) <= whole)
    ensures |text| < |Appended(text, chunk, max)|
  {
    var end := Cut(chunk, max - |text|);
    HeadIsBoundary(chunk, CharLen(chunk));
    assert end > 0;
    var merged := Appended(text, chunk, max);
    assert merged[|text|] == chunk[0];
    var next := whole[|text|..];
    assert next[0] == whole[|text|];
    if next[0] == chunk[0] {
      SameLeadSameLength(next, chunk);
    }
  }

  lemma SameLeadSameLength(a: seq<Byte>, b: seq<Byte>)
    requires CharLen(a) > 0 && CharLen(b) > 0 && a[0] == b[0]
    ensures CharLen(a) == CharLen(b)
  {
  }

  /** Where the merge is a prefix that is not the whole, what follows it is a character too long for the room. */
  lemma {:induction false} PrefixOrLate(chunks: seq<Stream>, max: nat)
    ensures var merged, whole := Merged(chunks, max).text, Complete(chunks);
      && (merged <= whole <==> !exists j: nat :: j < |chunks| && FitsLate(chunks, max, j))
      && (|whole| > max && merged <= whole ==> Stuck(merged, whole, max))
  {
    if chunks != [] {
      hide Merged, Complete, FitsLate, Stuck, Appended, Valid, CharLen;
      var n := |chunks| - 1;
      var front, last := chunks[..n], chunks[n].text;
      PrefixOrLate(front, max);
      MergedIsLosslessOrFlagged(front, max);
      FitsLateFront(chunks, max);
      LastPush(chunks, max);
      OneMorePush(Merged(front, max).text, Complete(front), last, max);
    }
  }

  lemma LastPush(chunks: seq<Stream>, max: nat)
    requires chunks != []
    ensures var n := |chunks| - 1;
      && Complete(chunks) == Complete(chunks[..n]) + chunks[n].text
      && Merged(chunks, max).text == Appended(Merged(chunks[..n], max).text, chunks[n].text, max)
      && (FitsLate(chunks, max, n) <==> IsLate(Complete(chunks[..n]), chunks[n].text, max))
  {
  }

  /** One push, whatever came before. */
  lemma OneMorePush(text: Text, whole: Text, chunk: Text, max: nat)
    requires |text| <= max && (|whole| <= max ==> text == whole)
    requires |whole| > max && text <= whole ==> Stuck(text, whole, max)
    ensures var merged := Appended(text, chunk, max);
      && (merged <= whole + chunk <==> text <= whole && !IsLate(whole, chunk, max))
      && (|whole + chunk| > max && merged <= whole + chunk ==> Stuck(merged, whole + chunk, max))
  {
    if |whole| <= max {
      if |whole| + |chunk| > max {
        CutIsStuck(text, chunk, max);
      } else {
        assert chunk[..|chunk|] == chunk;
      }
    } else if !(text <= whole) {
      NoPrefixLater(text, whole, chunk, max);
    } else {
      StuckIsCut(text, whole, max);
      PushWhenStuck(text, whole, chunk, max);
    }
  }

  lemma PushWhenStuck(text: Text, whole: Text, chunk: Text, max: nat)
    requires Stuck(text, whole, max) && |whole| > max && |text| == Cut(whole, max)
    ensures var merged := Appended(text, chunk, max);
      && (merged <= whole + chunk <==> !IsLate(whole, chunk, max))
      && (merged <= whole + chunk ==> Stuck(merged, whole + chunk, max))
  {
    if chunk == [] || CharLen(chunk) > max - |text| {
      TooLongAddsNothing(text, chunk, max);
      StuckIsText(text, whole, max);
      StuckLonger(text, whole, chunk, max);
    } else {
      LateCharacterDiffers(text, whole, chunk, max);
      NotPrefixOfMore(Appended(text, chunk, max), text, whole, chunk);
    }
  }

  lemma StuckIsText(text: Text, whole: Text, max: nat)
    requires Stuck(text, whole, max)
    ensures Valid(whole[|text|..])
  {
    assert whole[..|text|] == text;
    BoundarySplits(whole, |text|);
  }

  /** A difference stays. */
  lemma NoPrefixLater(text: Text, whole: Text, chunk: Text, max: nat)
    requires |text| <= max < |whole| && !(text <= whole)
    ensures !(Appended(text, chunk, max) <= whole + chunk)
  {
    var i :| 0 <= i < |text| && text[i] != whole[i];
    assert Appended(text, chunk, max)[i] == text[i] && (whole + chunk)[i] == whole[i];
  }

  lemma NotPrefixOfMore(merged: seq<Byte>, text: seq<Byte>, whole: seq<Byte>, chunk: seq<Byte>)
    requires |text| < |merged| && |text| < |whole| && text <= whole && text <= merged && merged[|text|] != whole[|text|]
    ensures !(merged <= whole + chunk)
  {
    assert (whole + chunk)[|text|] == whole[|text|];
  }

  /**
   The merge is a prefix of everything written exactly when no chunk that comes after the cap has been
   exceeded still fits with its first character into the room left by cutting the text before it.
  */
  lemma MergeIsPrefixExactly(chunks: seq<Stream>, max: nat)
    ensures Merged(chunks, max).text <= Complete(chunks)
      <==> forall j: nat :: j < |chunks| ==> !FitsLate(chunks, max, j)
  {
    hide Merged, Complete, FitsLate;
    PrefixOrLate(chunks, max);
  }

  predicate Ascii(s: seq<Byte>) {
    forall i :: 0 <= i < |s| ==> s[i] < 0x80
  }

  /** For ASCII output this is always so: the merge is a plain prefix of everything written. */
  lemma AsciiMergeIsPrefix(chunks: seq<Stream>, max: nat)
    requires forall i :: 0 <= i < |chunks| ==> Ascii(chunks[i].text)
    ensures Merged(chunks, max).text == Complete(chunks)[..Min(max, |Complete(chunks)|)]
  {
    hide Merged, Complete, FitsLate, Ascii, Cut;
    AsciiNeverLate(chunks, max);
    MergeIsPrefixExactly(chunks, max);
    PrefixOrLate(chunks, max);
    MergedIsLosslessOrFlagged(chunks, max);
    AsciiComplete(chunks);
    AsciiCut(Complete(chunks), max);
    var merged, whole := Merged(chunks, max).text, Complete(chunks);
    if |whole| > max {
      StuckIsCut(merged, whole, max);
    }
    hide Stuck;
    assert merged == whole[..|merged|];
  }

  lemma AsciiNeverLate(chunks: seq<Stream>, max: nat)
    requires forall i :: 0 <= i < |chunks| ==> Ascii(chunks[i].text)
    ensures forall j: nat :: j < |chunks| ==> !FitsLate(chunks, max, j)
  {
    forall j: nat | j < |chunks|
      ensures !FitsLate(chunks, max, j)
    {
      AsciiComplete(chunks[..j]);
      AsciiCut(Complete(chunks[..j]), max);
    }
  }

  lemma AsciiCut(text: Text, room: nat)
    requires Ascii(text)
    ensures Cut(text, room) == Min(room, |text|)
  {
    assert room < |text| ==> IsBoundary(text, room);
  }

  lemma {:induction false} AsciiComplete(chunks: seq<Stream>)
    requires forall i :: 0 <= i < |chunks| ==> Ascii(chunks[i].text)
    ensures Ascii(Complete(chunks))
  {
    if chunks != [] {
      AsciiComplete(chunks[..|chunks| - 1]);
    }
  }

  const LONG: Text := [0x61, 0xC3, 0xA9]
  const SHORT: Text := [0x62]

  /** In general it is not: a character too long for the room left is dropped, and a later step may still fit. */
  lemma MergeNeedNotBePrefix()
    ensures var chunks := [Stream(LONG, false), Stream(SHORT, false)];
      && Merged(chunks, 2).text == [0x61, 0x62]
      && !(Merged(chunks, 2).text <= Complete(chunks))
  {
    var chunks := [Stream(LONG, false), Stream(SHORT, false)];
    LongThenShort();
    hide Appended, Valid;
    assert chunks[..1] == [Stream(LONG, false)] && chunks[..1][..0] == [];
    assert Merged(chunks[..1], 2).text == [0x61];
    assert Complete(chunks[..1]) == LONG;
    assert Complete(chunks)[1] == 0xC3;
  }

  lemma LongThenShort()
    ensures Appended([], LONG, 2) == [0x61] && Appended([0x61], SHORT, 2) == [0x61, 0x62]
  {
    assert !IsBoundary(LONG, 2) && IsBoundary(LONG, 1);
    assert Cut(LONG, 2) == 1 && Cut(SHORT, 1) == 1;
    assert LONG[..1] == [0x61] && SHORT[..1] == [0x62];
  }

  // ----- reading a pipe -----

  const READ_CHUNK: nat := 8192

  function Concat(parts: seq<seq<Byte>>): seq<Byte> {
    if parts == [] then [] else Concat(parts[..|parts| - 1]) + parts[|parts| - 1]
  }

  /** The first max bytes of a stream, however it is split. */
  function Captured(parts: seq<seq<Byte>>, max: nat): seq<Byte> {
    Concat(parts)[..Min(max, |Concat(parts)|)]
  }

  /**
   read_stream_capped over the reads that come before the end of the stream (or an I/O error): however the
   stream is split, the text is the decoding of its first max bytes, and the flag says whether there were
   more. The text is those very bytes exactly when they are well-formed.
  */
  method ReadStreamCapped(parts: seq<seq<Byte>>, max: nat) returns (text: Text, truncated: bool)
    requires forall i :: 0 <= i < |parts| ==> 0 < |parts[i]| <= READ_CHUNK
    ensures text == Lossy(Concat(parts)[..Min(max, |Concat(parts)|)]) && |text| <= 3 * max
    ensures text == Captured(parts, max) <==> Valid(Captured(parts, max))
    ensures truncated <==> |Concat(parts)| > max
  {
    var buf: seq<Byte> := [];
    truncated := false;
    for i := 0 to |parts|
      invariant buf == Captured(parts[..i], max)
      invariant truncated <==> |Concat(parts[..i])| > max
    {
      var chunk := parts[i];
      assert parts[..i + 1][..i] == parts[..i];
      var remaining := if |buf| <= max then max - |buf| else 0;
      if remaining == 0 {
        truncated := true;
        continue;
      }
      if |chunk| > remaining {
        buf := buf + chunk[..remaining];
        truncated := true;
      } else {
        buf := buf + chunk;
      }
    }
    assert parts[..|parts|] == parts;
    LossyIsText(buf);
    LossyIsExact(buf);
    text := Lossy(buf);
  }

  /** Decoding can take a single command's text over the cap: one malformed byte becomes three. */
  lemma DecodedTextMayExceedCap()
    ensures Captured([[0xFF]], 1) == [0xFF] && |Lossy(Captured([[0xFF]], 1))| == 3
  {
    assert [[0xFF]][..0] == [] && [[0xFF]] == [] + [[0xFF]];
    assert Concat([[0xFF]]) == [] + [0xFF] == [0xFF];
    assert Lossy([0xFF]) == REPLACEMENT + Lossy([]);
  }
}
