/**
 The redactor itself: loops over values and lengths, and a carry updated in place.
 Each method is proved against its function in `RedactorSpec`.
*/
module Redactor {
  import opened Options
  import opened RedactorSpec

  datatype Match = Match(index: nat, value: string)

  /** The least index at which `value` occurs, and -1 where it does not. */
  method IndexOf(input: string, value: string) returns (index: int)
    ensures index == -1 ==> forall j: nat :: !OccursAt(value, input, j)
    ensures index != -1 ==>
              && 0 <= index && OccursAt(value, input, index)
              && forall j: nat :: j < index ==> !OccursAt(value, input, j)
  {
    index := 0;
    while index + |value| <= |input|
      invariant 0 <= index
      invariant forall j: nat :: j < index ==> !OccursAt(value, input, j)
    {
      if input[index..index + |value|] == value { return; }
      index := index + 1;
    }
    index := -1;
  }

  /** The best match among the first `n` values: leftmost, and the longest of those. */
  ghost predicate BestOf(values: seq<string>, n: nat, input: string, best: Option<Match>)
    requires n <= |values|
  {
    match best
    case None => forall k, j: nat :: 0 <= k < n ==> !OccursAt(values[k], input, j)
    case Some(m) =>
      && m.value in values[..n] && OccursAt(m.value, input, m.index)
      && (forall k, j: nat :: 0 <= k < n && j < m.index ==> !OccursAt(values[k], input, j))
      && (forall k :: 0 <= k < n && OccursAt(values[k], input, m.index) ==> |values[k]| <= |m.value|)
  }

  lemma BestIsFirstMatch(values: seq<string>, input: string, best: Option<Match>)
    requires AllNonEmpty(values) && BestOf(values, |values|, input, best)
    ensures FirstMatch(values, input) == if best.Some? then Some(best.value.index) else None
  {
    if best.Some? {
      FirstMatchUnique(values, input, best.value.index);
    } else {
      FirstMatchIs(values, input);
    }
  }

  /** Where no value is complete, the lengths that are tried suffice, and a suffix that starts a value is a
      proper prefix of it. */
  lemma CarryIsUnique(values: seq<string>, input: string, length: nat)
    requires length <= |input|
    requires length > 0 ==> ProperPrefix(values, Suffix(input, length))
    requires forall m: nat :: length < m <= |input| ==> !ProperPrefix(values, Suffix(input, m))
    ensures CarryLength(values, input) == length
  {
    CarryWithinIs(values, input, |input|);
  }

  /** Every non-empty value, once. */
  function Kept(secretValues: seq<string>): (kept: seq<string>)
    ensures AllNonEmpty(kept)
    ensures forall value :: value in kept <==> value in secretValues && value != ""
    ensures forall k, l :: 0 <= k < l < |kept| ==> kept[k] != kept[l]
  {
    if secretValues == [] then []
    else
      var before, value := Kept(secretValues[..|secretValues| - 1]), secretValues[|secretValues| - 1];
      if value != "" && value !in before then before + [value] else before
  }

  class SecretRedactor {
    var values: seq<string>
    var maxSecretLength: nat
    var carry: string
    var stopped: bool

    ghost predicate Valid() reads this {
      AllNonEmpty(values) && forall k :: 0 <= k < |values| ==> |values[k]| <= maxSecretLength
    }

    ghost function State(): Scan reads this { Scan(carry, stopped) }

    constructor (secretValues: seq<string>)
      ensures Valid() && State() == Scan("", false) && values == Kept(secretValues)
    {
      var kept: seq<string>, longest: nat := [], 0;
      for n := 0 to |secretValues|
        invariant kept == Kept(secretValues[..n])
        invariant forall k :: 0 <= k < |kept| ==> |kept[k]| <= longest
      {
        assert secretValues[..n + 1][..n] == secretValues[..n];
        var value := secretValues[n];
        if value != "" && value !in kept {
          kept := kept + [value];
          longest := if |value| > longest then |value| else longest;
        }
      }
      assert secretValues[..|secretValues|] == secretValues;
      values, maxSecretLength, carry, stopped := kept, longest, "", false;
    }

    method FirstCompleteMatch(input: string) returns (best: Option<Match>)
      requires Valid()
      ensures BestOf(values, |values|, input, best)
      ensures FirstMatch(values, input) == if best.Some? then Some(best.value.index) else None
    {
      best := None;
      for n := 0 to |values|
        invariant BestOf(values, n, input, best)
      {
        var value := values[n];
        var index := IndexOf(input, value);
        if index == -1 { continue; }
        if best.None? || index < best.value.index || (index == best.value.index && |value| > |best.value.value|) {
          best := Some(Match(index, value));
        }
      }
      BestIsFirstMatch(values, input, best);
    }

    /** Some value begins with `suffix`. */
    method AnyStartsWith(suffix: string) returns (found: bool)
      ensures found <==> exists k :: 0 <= k < |values| && suffix <= values[k]
    {
      for n := 0 to |values|
        invariant forall k :: 0 <= k < n ==> !(suffix <= values[k])
      {
        if suffix <= values[n] { return true; }
      }
      return false;
    }

    /** Without a complete value in it, `input` ends in no whole value. */
    lemma StartsIsProperPrefix(input: string, length: nat)
      requires 0 < length <= |input| && !Leaks(values, input)
      ensures (exists k :: 0 <= k < |values| && Suffix(input, length) <= values[k]) <==>
                ProperPrefix(values, Suffix(input, length))
    {
      var suffix := Suffix(input, length);
      forall k | 0 <= k < |values| && suffix <= values[k] ensures |suffix| < |values[k]| {
        if |suffix| == |values[k]| {
          assert OccursAt(values[k], input, |input| - length);
          assert MatchAt(values, input, |input| - length);
        }
      }
    }

    method PrefixCarryLength(input: string) returns (length: int)
      requires Valid() && !Leaks(values, input)
      ensures length == CarryLength(values, input)
    {
      length := if |input| < maxSecretLength - 1 then |input| else maxSecretLength - 1;
      while length > 0
        invariant length <= |input| && length < maxSecretLength
        invariant -1 <= length
        invariant forall m: nat :: length < m <= |input| ==> !ProperPrefix(values, Suffix(input, m))
      {
        var found := AnyStartsWith(Suffix(input, length));
        StartsIsProperPrefix(input, length);
        if found {
          CarryIsUnique(values, input, length);
          return;
        }
        length := length - 1;
      }
      length := 0;
      CarryIsUnique(values, input, 0);
    }

    method Write(chunk: string) returns (output: string, leaked: bool)
      requires Valid()
      modifies this`carry, this`stopped
      ensures Valid()
      ensures Step(State(), output, leaked) == RedactorSpec.Write(values, old(State()), chunk)
      ensures leaked ==> |output| >= 19 && output[|output| - 19..] == "[KEYCLASP_REDACTED]"
    {
      if stopped { return "", false; }
      if values == [] { return chunk, false; }
      var combined := carry + chunk;
      var best := FirstCompleteMatch(combined);
      if best.Some? {
        stopped, carry := true, "";
        return combined[..best.value.index] + REDACTION, true;
      }
      FirstMatchIs(values, combined);
      var keepLength := PrefixCarryLength(combined);
      var flushLength := |combined| - keepLength;
      carry := combined[flushLength..];
      return combined[..flushLength], false;
    }

    method End() returns (output: string, leaked: bool)
      requires Valid()
      modifies this`carry, this`stopped
      ensures Valid()
      ensures Step(State(), output, leaked) == RedactorSpec.End(values, old(State()))
    {
      if stopped { return "", false; }
      var best := FirstCompleteMatch(carry);
      output := if best.Some? then carry[..best.value.index] + REDACTION else carry;
      carry, stopped, leaked := "", best.Some?, best.Some?;
    }
  }
}
