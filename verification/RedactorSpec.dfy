/**
 The streaming secret redactor against the stream it scans.

 `Feed` is the redactor run over a list of chunks; the lemmas relate it to the concatenation of the chunks.
*/
module RedactorSpec {
  import opened Options

  const REDACTION := "[KEYCLASP_REDACTED]"

  predicate OccursAt(value: string, input: string, i: nat) {
    i + |value| <= |input| && input[i..i + |value|] == value
  }

  /** Some value occurs at `i`. */
  predicate MatchAt(values: seq<string>, input: string, i: nat) {
    exists k :: 0 <= k < |values| && OccursAt(values[k], input, i)
  }

  ghost predicate Leaks(values: seq<string>, input: string) {
    exists i: nat :: MatchAt(values, input, i)
  }

  /** The text is the beginning of a value, and not all of it. */
  predicate ProperPrefix(values: seq<string>, text: string) {
    exists k :: 0 <= k < |values| && |text| < |values[k]| && values[k][..|text|] == text
  }

  predicate AllNonEmpty(values: seq<string>) {
    forall k :: 0 <= k < |values| ==> values[k] != ""
  }

  function Suffix(input: string, length: nat): string
    requires length <= |input|
  {
    input[|input| - length..]
  }

  /** The least index at or after `start` where some value occurs. */
  function FirstMatchFrom(values: seq<string>, input: string, start: nat): (first: Option<nat>)
    ensures first.Some? ==> start <= first.value < |input|
    decreases |input| - start
  {
    if start >= |input| then None
    else if MatchAt(values, input, start) then Some(start)
    else FirstMatchFrom(values, input, start + 1)
  }

  function FirstMatch(values: seq<string>, input: string): (first: Option<nat>)
    ensures first.Some? ==> first.value < |input|
  {
    FirstMatchFrom(values, input, 0)
  }

  /** The greatest length, up to `bound`, of a suffix that is the proper prefix of a value. */
  function CarryWithin(values: seq<string>, input: string, bound: nat): (length: nat)
    requires bound <= |input|
    ensures length <= bound
  {
    if bound == 0 || ProperPrefix(values, Suffix(input, bound)) then bound
    else CarryWithin(values, input, bound - 1)
  }

  function CarryLength(values: seq<string>, input: string): (length: nat)
    ensures length <= |input|
  {
    CarryWithin(values, input, |input|)
  }

  datatype Scan = Scan(carry: string, stopped: bool)

  datatype Step = Step(scan: Scan, output: string, leaked: bool)

  function Write(values: seq<string>, scan: Scan, chunk: string): Step {
    if scan.stopped then Step(scan, "", false)
    else if values == [] then Step(scan, chunk, false)
    else
      var combined := scan.carry + chunk;
      match FirstMatch(values, combined)
      case Some(i) => Step(Scan("", true), combined[..i] + REDACTION, true)
      case None =>
        var flushed := |combined| - CarryLength(values, combined);
        Step(Scan(combined[flushed..], false), combined[..flushed], false)
  }

  function End(values: seq<string>, scan: Scan): Step {
    if scan.stopped then Step(scan, "", false)
    else
      match FirstMatch(values, scan.carry)
      case Some(i) => Step(Scan("", true), scan.carry[..i] + REDACTION, true)
      case None => Step(Scan("", false), scan.carry, false)
  }

  /** The redactor over a list of chunks, from a fresh start. */
  function Feed(values: seq<string>, chunks: seq<string>): Step {
    if chunks == [] then Step(Scan("", false), "", false)
    else
      var before := Feed(values, chunks[..|chunks| - 1]);
      var step := Write(values, before.scan, chunks[|chunks| - 1]);
      Step(step.scan, before.output + step.output, before.leaked || step.leaked)
  }

  /** The same, followed by `end`. */
  function Total(values: seq<string>, chunks: seq<string>): Step {
    var before := Feed(values, chunks);
    var step := End(values, before.scan);
    Step(step.scan, before.output + step.output, before.leaked || step.leaked)
  }

  function Concat(chunks: seq<string>): string {
    if chunks == [] then "" else Concat(chunks[..|chunks| - 1]) + chunks[|chunks| - 1]
  }

  /** The whole stream scanned at once. */
  function OneShot(values: seq<string>, input: string): string {
    match FirstMatch(values, input)
    case Some(i) => input[..i] + REDACTION
    case None => input
  }

  // ---- what the two searches mean ---------------------------------------------------------------------------------

  lemma {:induction false} FirstMatchFromIs(values: seq<string>, input: string, start: nat)
    requires AllNonEmpty(values)
    ensures match FirstMatchFrom(values, input, start)
            case Some(i) => start <= i < |input| && MatchAt(values, input, i) &&
                            forall j: nat :: start <= j < i ==> !MatchAt(values, input, j)
            case None => forall j: nat :: start <= j ==> !MatchAt(values, input, j)
    decreases |input| - start
  {
    if start >= |input| || MatchAt(values, input, start) {
    } else {
      FirstMatchFromIs(values, input, start + 1);
    }
  }

  /** `FirstMatch` finds the leftmost occurrence of any value, if there is one. */
  lemma FirstMatchIs(values: seq<string>, input: string)
    requires AllNonEmpty(values)
    ensures match FirstMatch(values, input)
            case Some(i) =>
              && i < |input| && MatchAt(values, input, i)
              && forall j: nat :: j < i ==> !MatchAt(values, input, j)
            case None => forall j: nat :: !MatchAt(values, input, j)
    ensures FirstMatch(values, input).Some? <==> Leaks(values, input)
  {
    FirstMatchFromIs(values, input, 0);
  }

  lemma FirstMatchUnique(values: seq<string>, input: string, i: nat)
    requires AllNonEmpty(values) && MatchAt(values, input, i)
    requires forall j: nat :: j < i ==> !MatchAt(values, input, j)
    ensures FirstMatch(values, input) == Some(i)
  {
    FirstMatchIs(values, input);
  }

  lemma {:induction false} CarryWithinIs(values: seq<string>, input: string, bound: nat)
    requires bound <= |input|
    ensures var n := CarryWithin(values, input, bound);
            && (n > 0 ==> ProperPrefix(values, Suffix(input, n)))
            && forall m: nat :: n < m <= bound ==> !ProperPrefix(values, Suffix(input, m))
    decreases bound
  {
    if bound == 0 || ProperPrefix(values, Suffix(input, bound)) {
    } else {
      CarryWithinIs(values, input, bound - 1);
    }
  }

  /** The carry is the longest suffix of `input` that could still become a value. */
  ghost predicate IsLongestCarry(values: seq<string>, input: string, carry: string) {
    && |carry| <= |input| && carry == Suffix(input, |carry|)
    && (carry != "" ==> ProperPrefix(values, carry))
    && forall m: nat :: |carry| < m <= |input| ==> !ProperPrefix(values, Suffix(input, m))
  }

  lemma CarryLengthIs(values: seq<string>, input: string)
    ensures IsLongestCarry(values, input, Suffix(input, CarryLength(values, input)))
  {
    CarryWithinIs(values, input, |input|);
  }

  // ---- one chunk --------------------------------------------------------------------------------------------------

  /** An occurrence in a longer stream is complete in the stream read before, or a suffix of that stream is a
      proper prefix of its value, or it starts behind that stream. */
  lemma OccurrenceStarts(values: seq<string>, value: string, read: string, chunk: string, i: nat)
    requires value in values && OccursAt(value, read + chunk, i)
    ensures MatchAt(values, read, i) || |read| <= i || ProperPrefix(values, Suffix(read, |read| - i))
  {
    var all := read + chunk;
    var k :| 0 <= k < |values| && values[k] == value;
    if i + |value| <= |read| {
      assert read[i..i + |value|] == all[i..i + |value|];
    } else if i < |read| {
      assert value[..|read| - i] == all[i..i + |value|][..|read| - i] == all[i..|read|] == Suffix(read, |read| - i);
    }
  }

  lemma OccursInSuffix(value: string, all: string, skipped: nat, i: nat)
    requires skipped <= i && skipped <= |all|
    ensures OccursAt(value, all, i) <==> OccursAt(value, all[skipped..], i - skipped)
  {
    if i + |value| <= |all| {
      assert all[skipped..][i - skipped..i - skipped + |value|] == all[i..i + |value|];
    }
  }

  /** Against the whole stream, an occurrence that the next chunk completes starts inside carry and chunk. */
  lemma MatchesStartInCombined(values: seq<string>, read: string, carry: string, chunk: string, i: nat)
    requires !Leaks(values, read) && IsLongestCarry(values, read, carry)
    ensures MatchAt(values, read + chunk, i) <==>
              |read| - |carry| <= i && MatchAt(values, carry + chunk, i - (|read| - |carry|))
  {
    var skipped := |read| - |carry|;
    if MatchAt(values, read + chunk, i) {
      NoMatchInSkipped(values, read, carry, chunk, i);
    }
    if skipped <= i {
      SameMatches(values, read + chunk, carry + chunk, skipped, i);
    }
  }

  lemma NoMatchInSkipped(values: seq<string>, read: string, carry: string, chunk: string, i: nat)
    requires !Leaks(values, read) && IsLongestCarry(values, read, carry) && MatchAt(values, read + chunk, i)
    ensures |read| - |carry| <= i
  {
    var k :| 0 <= k < |values| && OccursAt(values[k], read + chunk, i);
    OccurrenceStarts(values, values[k], read, chunk, i);
  }

  lemma SameMatches(values: seq<string>, all: string, rest: string, skipped: nat, i: nat)
    requires skipped <= |all| && rest == all[skipped..] && skipped <= i
    ensures MatchAt(values, all, i) <==> MatchAt(values, rest, i - skipped)
  {
    forall k | 0 <= k < |values| ensures OccursAt(values[k], all, i) <==> OccursAt(values[k], rest, i - skipped) {
      OccursInSuffix(values[k], all, skipped, i);
    }
  }

  lemma NoMatchBefore(values: seq<string>, read: string, carry: string, chunk: string, i: nat, j: nat)
    requires !Leaks(values, read) && IsLongestCarry(values, read, carry)
    requires forall j: nat :: j < i ==> !MatchAt(values, carry + chunk, j)
    requires j < |read| - |carry| + i
    ensures !MatchAt(values, read + chunk, j)
  {
    MatchesStartInCombined(values, read, carry, chunk, j);
  }

  lemma SomeMatchOfCombined(values: seq<string>, read: string, carry: string, chunk: string)
    requires AllNonEmpty(values) && !Leaks(values, read) && IsLongestCarry(values, read, carry)
    requires FirstMatch(values, carry + chunk).Some?
    ensures FirstMatch(values, read + chunk) == Some(|read| - |carry| + FirstMatch(values, carry + chunk).value)
  {
    FirstMatchIs(values, carry + chunk);
    var i := FirstMatch(values, carry + chunk).value;
    var at := |read| - |carry| + i;
    MatchesStartInCombined(values, read, carry, chunk, at);
    forall j: nat | j < at ensures !MatchAt(values, read + chunk, j) {
      NoMatchBefore(values, read, carry, chunk, i, j);
    }
    FirstMatchUnique(values, read + chunk, at);
  }

  lemma NoMatchOfCombined(values: seq<string>, read: string, carry: string, chunk: string)
    requires AllNonEmpty(values) && !Leaks(values, read) && IsLongestCarry(values, read, carry)
    requires FirstMatch(values, carry + chunk).None?
    ensures !Leaks(values, read + chunk)
  {
    FirstMatchIs(values, carry + chunk);
    forall j: nat ensures !MatchAt(values, read + chunk, j) {
      MatchesStartInCombined(values, read, carry, chunk, j);
    }
  }

  /** Cutting the chunk off a suffix that is a proper prefix of a value leaves such a suffix. */
  lemma ShorterCarry(values: seq<string>, read: string, chunk: string, m: nat)
    requires |chunk| < m <= |read| + |chunk|
    ensures ProperPrefix(values, Suffix(read + chunk, m)) ==> ProperPrefix(values, Suffix(read, m - |chunk|))
  {
    var long := Suffix(read + chunk, m);
    if ProperPrefix(values, long) {
      var k :| 0 <= k < |values| && |long| < |values[k]| && values[k][..|long|] == long;
      assert values[k][..m - |chunk|] == long[..m - |chunk|] == Suffix(read, m - |chunk|);
    }
  }

  /** The longest carry of carry and chunk is the longest carry of the whole stream. */
  lemma CarryOfCombined(values: seq<string>, read: string, carry: string, chunk: string, next: string)
    requires IsLongestCarry(values, read, carry) && IsLongestCarry(values, carry + chunk, next)
    ensures IsLongestCarry(values, read + chunk, next)
  {
    var all, combined := read + chunk, carry + chunk;
    assert Suffix(all, |combined|) == combined;
    assert Suffix(all, |next|) == Suffix(combined, |next|);
    forall m: nat | |next| < m <= |all| ensures !ProperPrefix(values, Suffix(all, m)) {
      if m <= |combined| {
        assert Suffix(all, m) == Suffix(combined, m);
      } else {
        ShorterCarry(values, read, chunk, m);
      }
    }
  }

  /** What holds of the redactor after it read `read`: either nothing leaked, everything but the carry is out,
      and the carry is the longest possible; or detection happened after some prefix of the stream, the output
      is that prefix up to its first match, and the marker. */
  ghost predicate Tracks(values: seq<string>, read: string, step: Step) {
    if !step.scan.stopped then !step.leaked && Carrying(values, read, step.scan.carry, step.output)
    else step.leaked && exists n: nat :: n <= |read| && DetectedAfter(values, read, n, step.output)
  }

  ghost predicate Carrying(values: seq<string>, read: string, carry: string, output: string) {
    && !Leaks(values, read) && output + carry == read
    && if values == [] then carry == "" else IsLongestCarry(values, read, carry)
  }

  ghost predicate DetectedAfter(values: seq<string>, read: string, n: nat, output: string)
    requires n <= |read|
  {
    var i := FirstMatch(values, read[..n]);
    i.Some? && i.value < n && output == read[..i.value] + REDACTION
  }

  lemma TracksWrite(values: seq<string>, read: string, before: Step, chunk: string)
    requires AllNonEmpty(values) && Tracks(values, read, before)
    ensures var step := Write(values, before.scan, chunk);
            Tracks(values, read + chunk, Step(step.scan, before.output + step.output, before.leaked || step.leaked))
  {
    var all := read + chunk;
    var step := Write(values, before.scan, chunk);
    if before.scan.stopped {
      var n: nat :| n <= |read| && DetectedAfter(values, read, n, before.output);
      assert all[..n] == read[..n];
      assert before.output + "" == before.output;
      var i := FirstMatch(values, read[..n]).value;
      assert all[..i] == read[..i];
      assert DetectedAfter(values, all, n, before.output);
    } else if values == [] {
      assert before.output + "" == before.output;
      assert before.output + chunk + "" == all;
    } else if FirstMatch(values, before.scan.carry + chunk).Some? {
      TracksDetection(values, read, before, chunk);
    } else {
      TracksCarry(values, read, before, chunk);
    }
  }

  ghost predicate Scanning(values: seq<string>, read: string, before: Step, chunk: string) {
    AllNonEmpty(values) && values != [] && Tracks(values, read, before) && !before.scan.stopped
  }

  lemma TracksDetection(values: seq<string>, read: string, before: Step, chunk: string)
    requires Scanning(values, read, before, chunk) && FirstMatch(values, before.scan.carry + chunk).Some?
    ensures var step := Write(values, before.scan, chunk);
            Tracks(values, read + chunk, Step(step.scan, before.output + step.output, before.leaked || step.leaked))
  {
    var step := Write(values, before.scan, chunk);
    var all, carry := read + chunk, before.scan.carry;
    SomeMatchOfCombined(values, read, carry, chunk);
    var i := FirstMatch(values, carry + chunk).value;
    assert all[..|all|] == all;
    assert all == before.output + (carry + chunk);
    assert before.output + (carry + chunk)[..i] == all[..|before.output| + i];
    assert before.output + ((carry + chunk)[..i] + REDACTION) == all[..|before.output| + i] + REDACTION;
    assert DetectedAfter(values, all, |all|, before.output + step.output);
  }

  /** What a write without a match holds back is the longest carry of the whole stream. */
  lemma NextCarry(values: seq<string>, read: string, carry: string, chunk: string)
    requires IsLongestCarry(values, read, carry)
    ensures IsLongestCarry(values, read + chunk, Suffix(carry + chunk, CarryLength(values, carry + chunk)))
  {
    CarryLengthIs(values, carry + chunk);
    CarryOfCombined(values, read, carry, chunk, Suffix(carry + chunk, CarryLength(values, carry + chunk)));
  }

  /** Cutting carry and chunk anywhere loses nothing. */
  lemma Rejoined(output: string, carry: string, chunk: string, flushed: nat)
    requires flushed <= |carry + chunk|
    ensures output + (carry + chunk)[..flushed] + (carry + chunk)[flushed..] == output + carry + chunk
  {
  }

  lemma CarryOn(values: seq<string>, read: string, carry: string, output: string, chunk: string, n: nat)
    requires AllNonEmpty(values) && values != [] && Carrying(values, read, carry, output)
    requires FirstMatch(values, carry + chunk) == None && n == CarryLength(values, carry + chunk)
    ensures var flushed := |carry + chunk| - n;
            Carrying(values, read + chunk, (carry + chunk)[flushed..], output + (carry + chunk)[..flushed])
  {
    NoMatchOfCombined(values, read, carry, chunk);
    NextCarry(values, read, carry, chunk);
    Rejoined(output, carry, chunk, |carry + chunk| - n);
  }

  lemma TracksCarry(values: seq<string>, read: string, before: Step, chunk: string)
    requires Scanning(values, read, before, chunk) && FirstMatch(values, before.scan.carry + chunk).None?
    ensures var step := Write(values, before.scan, chunk);
            Tracks(values, read + chunk, Step(step.scan, before.output + step.output, before.leaked || step.leaked))
  {
    CarryOn(values, read, before.scan.carry, before.output, chunk, CarryLength(values, before.scan.carry + chunk));
  }

  lemma {:induction false} TracksFeed(values: seq<string>, chunks: seq<string>)
    requires AllNonEmpty(values)
    ensures Tracks(values, Concat(chunks), Feed(values, chunks))
    decreases |chunks|
  {
    if chunks == [] {
      assert !Leaks(values, "") by { FirstMatchIs(values, ""); }
    } else {
      TracksFeed(values, chunks[..|chunks| - 1]);
      TracksWrite(values, Concat(chunks[..|chunks| - 1]), Feed(values, chunks[..|chunks| - 1]), chunks[|chunks| - 1]);
    }
  }

  // ---- main results -----------------------------------------------------------------------------------------------

  /** At any time the carry is the longest suffix of everything read that is a proper prefix of a value, so
      fewer characters are held than the longest value has. */
  lemma CarryIsLongest(values: seq<string>, chunks: seq<string>, longest: nat)
    requires AllNonEmpty(values) && values != [] && !Feed(values, chunks).scan.stopped
    requires forall k :: 0 <= k < |values| ==> |values[k]| <= longest
    ensures IsLongestCarry(values, Concat(chunks), Feed(values, chunks).scan.carry)
    ensures Feed(values, chunks).scan.carry == "" || |Feed(values, chunks).scan.carry| < longest
  {
    TracksFeed(values, chunks);
  }

  /** An occurrence inside a suffix of the stream is one in the stream. */
  lemma SuffixHasNoMatch(values: seq<string>, read: string, carry: string)
    requires AllNonEmpty(values) && !Leaks(values, read) && |carry| <= |read| && carry == Suffix(read, |carry|)
    ensures FirstMatch(values, carry) == None
  {
    var skipped := |read| - |carry|;
    forall i: nat ensures !MatchAt(values, carry, i) {
      SameMatches(values, read, carry, skipped, skipped + i);
    }
    FirstMatchIs(values, carry);
  }

  /** A carry never holds a complete value, so `end` never finds one. */
  lemma EndNeverMatches(values: seq<string>, chunks: seq<string>)
    requires AllNonEmpty(values)
    ensures !End(values, Feed(values, chunks).scan).leaked
    ensures var scan := Feed(values, chunks).scan;
            End(values, scan).output == scan.carry || scan.stopped
  {
    TracksFeed(values, chunks);
    var scan := Feed(values, chunks).scan;
    if !scan.stopped {
      SuffixHasNoMatch(values, Concat(chunks), scan.carry);
    }
  }

  /** However a stream is cut into chunks, a leak is reported exactly when some value occurs in the stream. */
  lemma LeakReportedIff(values: seq<string>, chunks: seq<string>)
    requires AllNonEmpty(values)
    ensures Total(values, chunks).leaked <==> Leaks(values, Concat(chunks))
  {
    TracksFeed(values, chunks);
    EndNeverMatches(values, chunks);
    var step, read := Feed(values, chunks), Concat(chunks);
    if step.scan.stopped {
      var n: nat :| n <= |read| && DetectedAfter(values, read, n, step.output);
      PrefixLeaks(values, read, n);
    }
  }

  lemma PrefixLeaks(values: seq<string>, read: string, n: nat)
    requires AllNonEmpty(values) && n <= |read| && FirstMatch(values, read[..n]).Some?
    ensures MatchAt(values, read, FirstMatch(values, read[..n]).value)
  {
    FirstMatchIs(values, read[..n]);
    var i := FirstMatch(values, read[..n]).value;
    var k :| 0 <= k < |values| && OccursAt(values[k], read[..n], i);
    assert read[i..i + |values[k]|] == read[..n][i..i + |values[k]|];
  }

  /** Without a leak the output is the stream; with one it is a prefix of the stream that contains no complete
      value, and the marker. */
  lemma OutputIsSafe(values: seq<string>, chunks: seq<string>)
    requires AllNonEmpty(values)
    ensures !Leaks(values, Concat(chunks)) ==> Total(values, chunks).output == Concat(chunks)
    ensures Leaks(values, Concat(chunks)) ==>
              exists i :: 0 <= i <= |Concat(chunks)| && !Leaks(values, Concat(chunks)[..i]) &&
                          Total(values, chunks).output == Concat(chunks)[..i] + REDACTION
  {
    TracksFeed(values, chunks);
    EndNeverMatches(values, chunks);
    LeakReportedIff(values, chunks);
    var step, read := Feed(values, chunks), Concat(chunks);
    if step.scan.stopped {
      var n: nat :| n <= |read| && DetectedAfter(values, read, n, step.output);
      var i := FirstMatch(values, read[..n]).value;
      FirstMatchIs(values, read[..n]);
      BeforeFirstMatch(values, read, n);
      assert step.output + "" == step.output;
    }
  }

  lemma BeforeFirstMatch(values: seq<string>, read: string, n: nat)
    requires AllNonEmpty(values) && n <= |read| && FirstMatch(values, read[..n]).Some?
    ensures FirstMatch(values, read[..n]).value <= n
    ensures !Leaks(values, read[..FirstMatch(values, read[..n]).value])
  {
    FirstMatchIs(values, read[..n]);
    var i := FirstMatch(values, read[..n]).value;
    forall j: nat, k | 0 <= k < |values| && OccursAt(values[k], read[..i], j) ensures false {
      assert read[..n][j..j + |values[k]|] == read[..i][j..j + |values[k]|];
      assert MatchAt(values, read[..n], j);
    }
  }

  /** No value, cut short, contains a complete value anywhere but at its own beginning. */
  ghost predicate ChunkSafe(values: seq<string>) {
    forall k, n: nat :: 0 <= k < |values| && n < |values[k]| ==> CutSafely(values, values[k], n)
  }

  ghost predicate CutSafely(values: seq<string>, value: string, n: nat)
    requires n <= |value|
  {
    FirstMatch(values, value[..n]) in {None, Some(0)}
  }

  /** The output is independent of chunking, and equal to the one-shot scan, exactly for such values. */
  lemma ChunkIndependentIff(values: seq<string>)
    requires AllNonEmpty(values)
    ensures (forall chunks :: Total(values, chunks).output == OneShot(values, Concat(chunks))) <==> ChunkSafe(values)
  {
    if ChunkSafe(values) {
      forall chunks ensures Total(values, chunks).output == OneShot(values, Concat(chunks)) {
        ChunkSafeOutput(values, chunks);
      }
    } else {
      var k, n: nat :| 0 <= k < |values| && n < |values[k]| && !CutSafely(values, values[k], n);
      ChunkUnsafeOutput(values, values[k], n);
    }
  }

  lemma ChunkSafeOutput(values: seq<string>, chunks: seq<string>)
    requires AllNonEmpty(values) && ChunkSafe(values)
    ensures Total(values, chunks).output == OneShot(values, Concat(chunks))
  {
    TracksFeed(values, chunks);
    EndNeverMatches(values, chunks);
    var step, read := Feed(values, chunks), Concat(chunks);
    FirstMatchIs(values, read);
    if step.scan.stopped {
      var n: nat :| n <= |read| && DetectedAfter(values, read, n, step.output);
      EarlyDetectionIsFirst(values, read, n);
      assert step.output + "" == step.output;
    }
  }

  /** With safe values, the first match of a prefix is the first match of the stream. */
  lemma EarlyDetectionIsFirst(values: seq<string>, read: string, n: nat)
    requires AllNonEmpty(values) && ChunkSafe(values) && n <= |read| && FirstMatch(values, read[..n]).Some?
    ensures FirstMatch(values, read) == FirstMatch(values, read[..n])
  {
    FirstMatchIs(values, read);
    PrefixLeaks(values, read, n);
    if FirstMatch(values, read).value < FirstMatch(values, read[..n]).value {
      NoEarlierMatch(values, read, n);
    }
  }

  lemma NoEarlierMatch(values: seq<string>, read: string, n: nat)
    requires AllNonEmpty(values) && ChunkSafe(values) && n <= |read|
    requires FirstMatch(values, read[..n]).Some? && FirstMatch(values, read).Some?
    ensures FirstMatch(values, read[..n]).value <= FirstMatch(values, read).value
  {
    FirstMatchIs(values, read[..n]);
    FirstMatchIs(values, read);
    var b, a := FirstMatch(values, read[..n]).value, FirstMatch(values, read).value;
    var k :| 0 <= k < |values| && OccursAt(values[k], read, a);
    var l :| 0 <= l < |values| && OccursAt(values[l], read[..n], b);
    if a < b {
      EarlierValueIsCut(values, read, n, values[k], a, values[l], b);
    }
  }

  /** A value that starts earlier but is complete only after `n` would have to contain, cut at `n`, a match. */
  lemma EarlierValueIsCut(values: seq<string>, read: string, n: nat, value: string, a: nat, other: string, b: nat)
    requires AllNonEmpty(values) && ChunkSafe(values) && n <= |read| && a < b
    requires value in values && OccursAt(value, read, a)
    requires other in values && OccursAt(other, read[..n], b)
    ensures MatchAt(values, read[..n], a)
  {
    if a + |value| <= n {
      assert read[..n][a..a + |value|] == read[a..a + |value|];
    } else {
      var cut := n - a;
      var text := value[..cut];
      assert text == read[a..a + |value|][..cut] == read[..n][a..];
      OccursInSuffix(other, read[..n], a, b);
      FirstMatchIs(values, text);
      var k :| 0 <= k < |values| && values[k] == value;
      assert CutSafely(values, values[k], cut);
      assert MatchAt(values, text, b - a);
      var l :| 0 <= l < |values| && OccursAt(values[l], text, 0);
      OccursInSuffix(values[l], read[..n], a, a);
    }
  }

  /** A value that can be cut unsafely is a stream on which chunking shows. */
  lemma ChunkUnsafeOutput(values: seq<string>, value: string, n: nat)
    requires AllNonEmpty(values) && value in values && n < |value| && !CutSafely(values, value, n)
    ensures Total(values, [value[..n], value[n..]]).output != OneShot(values, Concat([value[..n], value[n..]]))
  {
    var head, tail := value[..n], value[n..];
    FirstMatchIs(values, head);
    FirstMatchUnique(values, value, 0) by { assert OccursAt(value, value, 0); }
    assert value[..0] + REDACTION == REDACTION;
    assert head + tail == value;
    TwoChunks(values, head, tail);
  }

  /** Detection in the first of two chunks settles the output. */
  lemma TwoChunks(values: seq<string>, head: string, tail: string)
    requires AllNonEmpty(values) && values != [] && FirstMatch(values, head).Some?
    ensures Concat([head, tail]) == head + tail
    ensures Total(values, [head, tail]).output == head[..FirstMatch(values, head).value] + REDACTION
  {
    FirstMatchIs(values, head);
    var chunks := [head, tail];
    assert chunks[..1] == [head] && [head][..0] == [];
    assert Concat([head]) == "" + head == head;
    assert Scan("", false).carry + head == head;
    var output := head[..FirstMatch(values, head).value] + REDACTION;
    assert "" + output == output && output + "" == output;
    assert Feed(values, [head]) == Step(Scan("", true), output, true);
    assert Feed(values, chunks) == Step(Scan("", true), output, true);
  }

  /** No value begins inside another one, but at its first character. */
  ghost predicate NoneInside(values: seq<string>) {
    forall value, other, i: nat :: value in values && other in values && 0 < i ==> !OccursAt(other, value, i)
  }

  /** The usual sufficient condition: no value lies at a nonzero offset inside another. */
  lemma NoneInsideIsChunkSafe(values: seq<string>)
    requires AllNonEmpty(values) && NoneInside(values)
    ensures ChunkSafe(values)
    ensures forall chunks :: Total(values, chunks).output == OneShot(values, Concat(chunks))
  {
    forall k, n: nat | 0 <= k < |values| && n < |values[k]| ensures CutSafely(values, values[k], n) {
      PrefixMatchIsInside(values, values[k], n);
    }
    ChunkIndependentIff(values);
  }

  lemma PrefixMatchIsInside(values: seq<string>, value: string, n: nat)
    requires AllNonEmpty(values) && NoneInside(values) && value in values && n <= |value|
    ensures CutSafely(values, value, n)
  {
    FirstMatchIs(values, value[..n]);
    if FirstMatch(values, value[..n]).Some? {
      var i := FirstMatch(values, value[..n]).value;
      var l :| 0 <= l < |values| && OccursAt(values[l], value[..n], i);
      OccursInWhole(values[l], value, n, i);
    }
  }

  /** What occurs in a prefix occurs in the whole. */
  lemma OccursInWhole(value: string, whole: string, n: nat, i: nat)
    requires n <= |whole| && OccursAt(value, whole[..n], i)
    ensures OccursAt(value, whole, i)
  {
    assert i + |value| <= n;
    assert whole[i..i + |value|] == whole[..n][i..i + |value|];
  }
}
