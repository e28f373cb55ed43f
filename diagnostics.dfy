/** The diagnostic lines of the `print` cheatcode. Each input value gives
    one line that always shows the value in decimal and, when the value
    reads as a short string, that string too. `ParseLine` reads a line back;
    it is the partner that shows a line determines both what was printed and
    whether a string was shown. */
module Diagnostics {
  import opened Wrappers
  import opened Felts

  const VALUE_PREFIX: string := "original value: ["
  const STRING_INFIX: string := "], converted to a string: ["

  /** What a line says: a value and, when one is shown, its string form. */
  datatype Described = Described(value: nat, shortString: Option<string>)

  /** The part of a line that shows the raw value. */
  function RawPart(value: Felt): string {
    VALUE_PREFIX + DecimalText(value) + "]"
  }

  /** The line printed for one input value, given what short-string decoding made of it. */
  function FormatLine(value: Felt, shortString: Option<string>): (line: string)
    ensures RawPart(value) <= line
    ensures line == RawPart(value) <==> shortString.None?
  {
    match shortString
    case None => VALUE_PREFIX + DecimalText(value) + "]"
    case Some(s) =>
      var line := VALUE_PREFIX + DecimalText(value) + STRING_INFIX + s + "]";
      assert line == RawPart(value) + STRING_INFIX[1..] + s + "]";
      line
  }

  /** The length of the run of decimal digits at the front of `s`. */
  function DigitRun(s: string): (k: nat)
    ensures k <= |s| && AllDigits(s[..k])
    ensures k < |s| ==> !IsDigit(s[k])
  {
    if s == [] || !IsDigit(s[0]) then 0
    else
      var k := 1 + DigitRun(s[1..]);
      assert s[..k] == [s[0]] + s[1..][..k - 1];
      k
  }

  /** Reads a printed line back into the value and the string it shows. */
  function ParseLine(line: string): Option<Described> {
    if !(VALUE_PREFIX <= line) then None
    else
      var rest := line[|VALUE_PREFIX|..];
      var k := DigitRun(rest);
      var tail := rest[k..];
      if k == 0 then None
      else if tail == "]" then Some(Described(DecimalValue(rest[..k]), None))
      else if |tail| > |STRING_INFIX| && STRING_INFIX <= tail && tail[|tail| - 1] == ']'
      then Some(Described(DecimalValue(rest[..k]), Some(tail[|STRING_INFIX|..|tail| - 1])))
      else None
  }

  lemma DigitRunStopsAt(digits: string, tail: string)
    requires AllDigits(digits) && tail != [] && !IsDigit(tail[0])
    ensures DigitRun(digits + tail) == |digits|
  {
    var s := digits + tail;
    assert forall i :: 0 <= i < |digits| ==> IsDigit(s[i]);
    assert !IsDigit(s[|digits|]);
  }

  /** The fields of a line made of the value prefix, some digits and an ending. */
  lemma SplitLine(digits: string, ending: string)
    requires |digits| > 0 && AllDigits(digits) && ending != [] && ending[0] == ']'
    ensures var line := VALUE_PREFIX + digits + ending;
      VALUE_PREFIX <= line &&
      var rest := line[|VALUE_PREFIX|..];
      DigitRun(rest) == |digits| && rest[..|digits|] == digits && rest[|digits|..] == ending
  {
    var line := VALUE_PREFIX + digits + ending;
    var rest := line[|VALUE_PREFIX|..];
    assert rest == digits + ending;
    DigitRunStopsAt(digits, ending);
  }

  /** Every printed line reads back as exactly the value it was printed for
      and the string shown for it, or no string when none was. */
  lemma {:induction false} ParseFormatLine(value: Felt, shortString: Option<string>)
    ensures ParseLine(FormatLine(value, shortString)) == Some(Described(value, shortString))
  {
    var digits := DecimalText(value);
    DecimalRoundTrip(value);
    match shortString
    case None =>
      SplitLine(digits, "]");
    case Some(s) =>
      var ending := STRING_INFIX + s + "]";
      assert FormatLine(value, shortString) == VALUE_PREFIX + digits + ending;
      SplitLine(digits, ending);
      assert ending != "]";
      assert STRING_INFIX <= ending;
      assert ending[|STRING_INFIX|..|ending| - 1] == s;
  }

  /** The lines printed for a run of inputs, one per input, in input order. */
  function PrintLines(inputs: seq<Felt>, shortString: Felt -> Option<string>): (lines: seq<string>)
    ensures |lines| == |inputs|
    ensures forall i :: 0 <= i < |inputs| ==>
      ParseLine(lines[i]) == Some(Described(inputs[i], shortString(inputs[i])))
    ensures forall i :: 0 <= i < |inputs| ==>
      RawPart(inputs[i]) <= lines[i] && (lines[i] == RawPart(inputs[i]) <==> shortString(inputs[i]).None?)
  {
    if inputs == [] then []
    else
      var last := inputs[|inputs| - 1];
      ParseFormatLine(last, shortString(last));
      PrintLines(inputs[..|inputs| - 1], shortString) + [FormatLine(last, shortString(last))]
  }
}
