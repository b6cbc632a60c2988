/**
 What an operator is shown when a secret is about to be revealed: escaped fields, joined by a slash.

 Text is a sequence of code points. `hidden` says which of them are control, format or separator characters; the
 Unicode tables themselves are not modelled, only that printable ASCII is not among them.
*/
module OperatorPrompt {
  import opened Options

  type CodePoint = c: int | 0 <= c < 0x11_0000

  type Text = seq<CodePoint>

  const QUOTE: CodePoint := 0x22
  const SLASH: CodePoint := 0x2F
  const REVERSE_SOLIDUS: CodePoint := 0x5C
  const LETTER_U: CodePoint := 0x75
  const OPEN_BRACE: CodePoint := 0x7B
  const CLOSE_BRACE: CodePoint := 0x7D

  // "Reveal secret "
  const REVEAL: Text := [0x52, 0x65, 0x76, 0x65, 0x61, 0x6C, 0x20, 0x73, 0x65, 0x63, 0x72, 0x65, 0x74, 0x20]

  ghost predicate PrintableAsciiShown(hidden: CodePoint -> bool) {
    forall c: CodePoint :: 0x20 <= c < 0x7F ==> !hidden(c)
  }

  function HexDigit(d: nat): (c: CodePoint)
    requires d < 16
    ensures c != CLOSE_BRACE && DigitValue(c) == Some(d) && c == "0123456789ABCDEF"[d] as int
  {
    if d < 10 then 0x30 + d else 0x41 + d - 10
  }

  function DigitValue(c: CodePoint): (d: Option<nat>)
    ensures d.Some? ==> d.value < 16
  {
    if 0x30 <= c <= 0x39 then Some(c - 0x30) else if 0x41 <= c <= 0x46 then Some(c - 0x41 + 10) else None
  }

  /** Upper-case hexadecimal without leading zeros. */
  function Hex(n: nat): Text {
    if n < 16 then [HexDigit(n)] else Hex(n / 16) + [HexDigit(n % 16)]
  }

  function Escape(hidden: CodePoint -> bool, c: CodePoint): (text: Text)
    ensures text != []
  {
    if hidden(c) then [REVERSE_SOLIDUS, LETTER_U, OPEN_BRACE] + Hex(c) + [CLOSE_BRACE]
    else if c == REVERSE_SOLIDUS then [REVERSE_SOLIDUS, REVERSE_SOLIDUS]
    else if c == QUOTE then [REVERSE_SOLIDUS, QUOTE]
    else [c]
  }

  function Escaped(hidden: CodePoint -> bool, value: Text): Text {
    if value == [] then [] else Escape(hidden, value[0]) + Escaped(hidden, value[1..])
  }

  function Displayed(hidden: CodePoint -> bool, value: Text): Text {
    [QUOTE] + Escaped(hidden, value) + [QUOTE]
  }

  lemma EscapedHead(hidden: CodePoint -> bool, c: CodePoint, value: Text)
    ensures Escaped(hidden, [c] + value) == Escape(hidden, c) + Escaped(hidden, value)
  {
    assert ([c] + value)[1..] == value;
  }

  lemma Regroup(a: Text, b: Text, c: Text)
    ensures a + (b + c) == (a + b) + c
  {
  }

  lemma {:induction false} EscapedAppend(hidden: CodePoint -> bool, value: Text, c: CodePoint)
    ensures Escaped(hidden, value + [c]) == Escaped(hidden, value) + Escape(hidden, c)
    decreases |value|
  {
    if value == [] {
      EscapedHead(hidden, c, []);
      assert [c] + [] == [] + [c];
    } else {
      var head, tail := value[0], value[1..];
      assert value == [head] + tail && value + [c] == [head] + (tail + [c]);
      EscapedAppend(hidden, tail, c);
      EscapedHead(hidden, head, tail);
      EscapedHead(hidden, head, tail + [c]);
      Regroup(Escape(hidden, head), Escaped(hidden, tail), Escape(hidden, c));
    }
  }

  lemma {:induction false} EscapedConcat(hidden: CodePoint -> bool, before: Text, after: Text)
    ensures Escaped(hidden, before + after) == Escaped(hidden, before) + Escaped(hidden, after)
    decreases |before|
  {
    if before == [] {
      assert before + after == after;
    } else {
      var head, tail := before[0], before[1..];
      assert before == [head] + tail && before + after == [head] + (tail + after);
      EscapedConcat(hidden, tail, after);
      EscapedHead(hidden, head, tail);
      EscapedHead(hidden, head, tail + after);
      Regroup(Escape(hidden, head), Escaped(hidden, tail), Escaped(hidden, after));
    }
  }

  /** One character between any others: hidden ones as their code points in braces, backslash and quote behind a
      backslash, and every other character as itself. */
  lemma CharacterShown(hidden: CodePoint -> bool, before: Text, c: CodePoint, after: Text)
    ensures var shown := if hidden(c) then [0x5C, 0x75, 0x7B] + Hex(c) + [0x7D]
                         else if c == 0x5C then [0x5C, 0x5C] else if c == 0x22 then [0x5C, 0x22] else [c];
            Displayed(hidden, before + [c] + after) ==
              [0x22] + (Escaped(hidden, before) + shown + Escaped(hidden, after)) + [0x22]
  {
    EscapedAppend(hidden, before, c);
    EscapedConcat(hidden, before + [c], after);
  }

  /** A text without hidden characters, quotes and backslashes is shown as it is, between quotes. */
  lemma {:induction false} VisibleIsShown(hidden: CodePoint -> bool, value: Text)
    requires forall c :: c in value ==> !hidden(c) && c != 0x22 && c != 0x5C
    ensures Escaped(hidden, value) == value
  {
    if value == [] {
    } else {
      assert forall c :: c in value[1..] ==> c in value;
      VisibleIsShown(hidden, value[1..]);
    }
  }

  /** Digits of a number in upper-case hexadecimal, the last one being worth one, and none in front without need. */
  lemma {:induction false} HexIs(n: nat)
    ensures |Hex(n)| >= 1 && Hex(n)[|Hex(n)| - 1] == "0123456789ABCDEF"[n % 16] as int
    ensures if n < 16 then |Hex(n)| == 1 else Hex(n)[..|Hex(n)| - 1] == Hex(n / 16)
    ensures n != 0 ==> Hex(n)[0] != 0x30
  {
    if n < 16 {
    } else {
      HexIs(n / 16);
      assert n / 16 != 0 && Hex(n)[0] == Hex(n / 16)[0];
    }
  }

  method DisplayOperatorField(hidden: CodePoint -> bool, value: Text) returns (text: Text)
    ensures text == Displayed(hidden, value)
    ensures (forall c :: c in value ==> !hidden(c) && c != 0x22 && c != 0x5C) ==> text == [0x22] + value + [0x22]
  {
    if forall c :: c in value ==> !hidden(c) && c != 0x22 && c != 0x5C { VisibleIsShown(hidden, value); }
    var displayed: Text := [];
    for n := 0 to |value|
      invariant displayed == Escaped(hidden, value[..n])
    {
      var character := value[n];
      EscapedAppend(hidden, value[..n], character);
      assert value[..n + 1] == value[..n] + [character];
      if hidden(character) {
        displayed := displayed + ([REVERSE_SOLIDUS, LETTER_U, OPEN_BRACE] + Hex(character) + [CLOSE_BRACE]);
      } else if character == REVERSE_SOLIDUS {
        displayed := displayed + [REVERSE_SOLIDUS, REVERSE_SOLIDUS];
      } else if character == QUOTE {
        displayed := displayed + [REVERSE_SOLIDUS, QUOTE];
      } else {
        displayed := displayed + [character];
      }
    }
    assert value[..|value|] == value;
    return [QUOTE] + displayed + [QUOTE];
  }

  function Joined(hidden: CodePoint -> bool, parts: seq<Text>): Text {
    if parts == [] then []
    else if |parts| == 1 then Displayed(hidden, parts[0])
    else Displayed(hidden, parts[0]) + ([SLASH] + Joined(hidden, parts[1..]))
  }

  function RevealSecretReason(hidden: CodePoint -> bool, parts: seq<Text>): Text {
    REVEAL + Joined(hidden, parts)
  }

  /** The prompt begins with its fixed text, and one more part adds a slash and the part. */
  lemma {:induction false} JoinedAppend(hidden: CodePoint -> bool, parts: seq<Text>, part: Text)
    ensures Joined(hidden, parts + [part]) ==
              Joined(hidden, parts) + (if parts == [] then [] else [0x2F]) + Displayed(hidden, part)
    decreases |parts|
  {
    if parts == [] {
    } else {
      var all, tail, head := parts + [part], parts[1..], Displayed(hidden, parts[0]);
      assert all[1..] == tail + [part] && all[0] == parts[0];
      JoinedAppend(hidden, tail, part);
      if tail == [] {
        assert Joined(hidden, parts) == head && Joined(hidden, all) == head + ([SLASH] + Displayed(hidden, part));
      } else {
        RegroupMore(head, [SLASH], Joined(hidden, tail), [SLASH], Displayed(hidden, part));
      }
    }
  }

  lemma RegroupMore(a: Text, b: Text, c: Text, d: Text, e: Text)
    ensures a + (b + (c + d + e)) == a + (b + c) + d + e
  {
  }

  lemma ReasonStarts(hidden: CodePoint -> bool, parts: seq<Text>, part: Text)
    ensures |RevealSecretReason(hidden, [])| == 14
    ensures forall k :: 0 <= k < 14 ==> RevealSecretReason(hidden, [])[k] == "Reveal secret "[k] as int
    ensures RevealSecretReason(hidden, parts + [part]) ==
              RevealSecretReason(hidden, parts) + (if parts == [] then [] else [0x2F]) + Displayed(hidden, part)
  {
    JoinedAppend(hidden, parts, part);
    RegroupFour(REVEAL, Joined(hidden, parts), if parts == [] then [] else [SLASH], Displayed(hidden, part));
    RevealText();
    assert RevealSecretReason(hidden, []) == REVEAL + [] == REVEAL;
  }

  lemma RegroupFour(a: Text, b: Text, c: Text, d: Text)
    ensures a + (b + c + d) == a + b + c + d
  {
  }

  lemma RevealText()
    ensures |REVEAL| == 14 && forall k :: 0 <= k < 14 ==> REVEAL[k] == "Reveal secret "[k] as int
  {
  }

  // ---- a reader, which is the left inverse ------------------------------------------------------------------------

  /** Hexadecimal digits up to the closing brace, and what follows it. */
  function ReadHex(text: Text, value: nat): Option<(CodePoint, Text)>
    decreases |text|
  {
    if text == [] then None
    else if text[0] == CLOSE_BRACE then (if value < 0x11_0000 then Some((value, text[1..])) else None)
    else
      var digit := DigitValue(text[0]);
      if digit.None? then None else ReadHex(text[1..], 16 * value + digit.value)
  }

  /** One escaped character, and what follows it. */
  function ReadCharacter(text: Text): (r: Option<(CodePoint, Text)>)
    ensures r.Some? ==> |r.value.1| < |text|
  {
    if text == [] then None
    else if text[0] != REVERSE_SOLIDUS then Some((text[0], text[1..]))
    else if |text| == 1 then None
    else if text[1] == REVERSE_SOLIDUS || text[1] == QUOTE then Some((text[1], text[2..]))
    else if text[1] == LETTER_U && |text| > 2 && text[2] == OPEN_BRACE then
      var r := ReadHex(text[3..], 0);
      if r.Some? && |r.value.1| < |text| then r else None
    else None
  }

  /** Characters up to an unescaped quote, and what follows it. */
  function ReadField(text: Text): (r: Option<(Text, Text)>)
    ensures r.Some? ==> |r.value.1| < |text|
    decreases |text|
  {
    if text == [] then None
    else if text[0] == QUOTE then Some(([], text[1..]))
    else
      match ReadCharacter(text)
      case None => None
      case Some((c, rest)) =>
        match ReadField(rest)
        case None => None
        case Some((value, tail)) => Some(([c] + value, tail))
  }

  function ReadParts(text: Text): Option<seq<Text>>
    decreases |text|
  {
    if text == [] then Some([])
    else if text[0] != QUOTE then None
    else
      match ReadField(text[1..])
      case None => None
      case Some((value, rest)) =>
        if rest == [] then Some([value])
        else if rest[0] != SLASH || |rest| == 1 then None
        else
          match ReadParts(rest[1..])
          case None => None
          case Some(values) => Some([value] + values)
  }

  lemma {:induction false} ReadHexOfHex(n: nat, tail: Text)
    ensures ReadHex(Hex(n) + tail, 0) == ReadHex(tail, n)
    decreases n
  {
    if n < 16 {
      assert (Hex(n) + tail)[1..] == tail;
    } else {
      ReadHexOfHex(n / 16, [HexDigit(n % 16)] + tail);
      assert Hex(n) + tail == Hex(n / 16) + ([HexDigit(n % 16)] + tail);
      assert ([HexDigit(n % 16)] + tail)[1..] == tail;
    }
  }

  lemma {:induction false} ReadHexShrinks(text: Text, value: nat)
    ensures ReadHex(text, value).Some? ==> |ReadHex(text, value).value.1| < |text|
    decreases |text|
  {
    if text == [] || text[0] == CLOSE_BRACE || DigitValue(text[0]).None? {
    } else {
      ReadHexShrinks(text[1..], 16 * value + DigitValue(text[0]).value);
    }
  }

  lemma ReadCharacterOfEscape(hidden: CodePoint -> bool, c: CodePoint, tail: Text)
    requires PrintableAsciiShown(hidden)
    ensures ReadCharacter(Escape(hidden, c) + tail) == Some((c, tail))
    ensures (Escape(hidden, c) + tail)[0] != QUOTE
  {
    var text := Escape(hidden, c) + tail;
    if hidden(c) {
      var rest := Hex(c) + ([CLOSE_BRACE] + tail);
      assert text[3..] == rest;
      ReadHexOfHex(c, [CLOSE_BRACE] + tail);
      assert ([CLOSE_BRACE] + tail)[1..] == tail;
      ReadHexShrinks(rest, 0);
    } else if c == REVERSE_SOLIDUS || c == QUOTE {
      assert text[2..] == tail;
    } else {
      assert text[1..] == tail;
    }
  }

  lemma {:induction false} ReadFieldOfEscaped(hidden: CodePoint -> bool, value: Text, tail: Text)
    requires PrintableAsciiShown(hidden)
    ensures ReadField(Escaped(hidden, value) + [QUOTE] + tail) == Some((value, tail))
    decreases |value|
  {
    var text := Escaped(hidden, value) + [QUOTE] + tail;
    if value == [] {
      assert text == [QUOTE] + tail && text[1..] == tail;
    } else {
      var rest := Escaped(hidden, value[1..]) + [QUOTE] + tail;
      assert text == Escape(hidden, value[0]) + rest;
      ReadCharacterOfEscape(hidden, value[0], rest);
      ReadFieldOfEscaped(hidden, value[1..], tail);
      assert [value[0]] + value[1..] == value;
    }
  }

  lemma ReadFieldOfDisplayed(hidden: CodePoint -> bool, value: Text, tail: Text)
    requires PrintableAsciiShown(hidden)
    ensures var text := Displayed(hidden, value) + tail; text[0] == QUOTE && ReadField(text[1..]) == Some((value, tail))
  {
    var text := Displayed(hidden, value) + tail;
    assert text[1..] == Escaped(hidden, value) + [QUOTE] + tail;
    ReadFieldOfEscaped(hidden, value, tail);
  }

  lemma {:induction false} ReadPartsOfJoined(hidden: CodePoint -> bool, parts: seq<Text>)
    requires PrintableAsciiShown(hidden)
    ensures ReadParts(Joined(hidden, parts)) == Some(parts)
    decreases |parts|
  {
    if |parts| == 1 {
      ReadFieldOfDisplayed(hidden, parts[0], []);
      assert Displayed(hidden, parts[0]) + [] == Displayed(hidden, parts[0]);
      assert parts == [parts[0]];
    } else if |parts| > 1 {
      var rest := [SLASH] + Joined(hidden, parts[1..]);
      ReadFieldOfDisplayed(hidden, parts[0], rest);
      ReadPartsOfJoined(hidden, parts[1..]);
      assert parts[1..] != [] && Joined(hidden, parts[1..]) != [];
      assert Joined(hidden, parts) == Displayed(hidden, parts[0]) + rest;
      assert rest[1..] == Joined(hidden, parts[1..]);
      assert [parts[0]] + parts[1..] == parts;
    }
  }

  // ---- main results -----------------------------------------------------------------------------------------------

  /** A displayed field can be read back, so different values are never shown alike. */
  lemma DisplayIsInjective(hidden: CodePoint -> bool, value: Text, other: Text)
    requires PrintableAsciiShown(hidden) && Displayed(hidden, value) == Displayed(hidden, other)
    ensures value == other
  {
    ReadFieldOfDisplayed(hidden, value, []);
    ReadFieldOfDisplayed(hidden, other, []);
  }

  /** The whole prompt can be read back, for lists of any length: distinct part lists show distinct prompts, and no
      quote, slash or escape inside a part can imitate another list. */
  lemma ReasonIsInjective(hidden: CodePoint -> bool, parts: seq<Text>, others: seq<Text>)
    requires PrintableAsciiShown(hidden) && RevealSecretReason(hidden, parts) == RevealSecretReason(hidden, others)
    ensures parts == others
  {
    assert RevealSecretReason(hidden, parts)[|REVEAL|..] == Joined(hidden, parts);
    assert RevealSecretReason(hidden, others)[|REVEAL|..] == Joined(hidden, others);
    ReadPartsOfJoined(hidden, parts);
    ReadPartsOfJoined(hidden, others);
  }

  /** Nothing hidden reaches the operator: a displayed field holds no control, format or separator character. */
  lemma {:induction false} NothingHiddenIsShown(hidden: CodePoint -> bool, value: Text)
    requires PrintableAsciiShown(hidden)
    ensures forall k :: 0 <= k < |Displayed(hidden, value)| ==> !hidden(Displayed(hidden, value)[k])
  {
    EscapedShowsNothing(hidden, value);
  }

  lemma {:induction false} EscapedShowsNothing(hidden: CodePoint -> bool, value: Text)
    requires PrintableAsciiShown(hidden)
    ensures forall k :: 0 <= k < |Escaped(hidden, value)| ==> !hidden(Escaped(hidden, value)[k])
    decreases |value|
  {
    if value == [] {
    } else {
      HexIsShown(hidden, value[0]);
      EscapedShowsNothing(hidden, value[1..]);
    }
  }

  lemma {:induction false} HexIsShown(hidden: CodePoint -> bool, n: nat)
    requires PrintableAsciiShown(hidden)
    ensures forall k :: 0 <= k < |Hex(n)| ==> !hidden(Hex(n)[k])
    decreases n
  {
    if n < 16 {
    } else {
      HexIsShown(hidden, n / 16);
    }
  }
}
