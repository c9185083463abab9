/**
 * The `IsNumericOnly` attached behaviour of `TextBoxProperties`: typed
 * text, pasted text and some keys are refused unless the text box would
 * still hold a number-like text.
 *
 * The recogniser for the pattern `^-?\d*\.?\d*$` is written out as a
 * three-phase scanner. As in .NET, `\d` is taken as the ASCII digits only
 * here, and `$` matches both at the very end and before a final '\n'.
 */
module TextBoxProperties {

  predicate IsDigit(c: char) {
    '0' <= c <= '9'
  }

  /** Where the scanner is in `-?\d*\.?\d*`: before the sign, in the integer digits, or after the point. */
  datatype Phase = Sign | IntegerPart | FractionPart

  /** How many phases are still ahead. */
  function PhasesLeft(phase: Phase): nat {
    match phase
    case Sign => 2
    case IntegerPart => 1
    case FractionPart => 0
  }

  /** The scanner: does `s`, read from `phase` on, finish the pattern `-?\d*\.?\d*`? */
  function Scan(s: string, phase: Phase): bool
    decreases |s|, PhasesLeft(phase)
  {
    if s == [] then true
    else match phase
      case Sign => if s[0] == '-' then Scan(s[1..], IntegerPart) else Scan(s, IntegerPart)
      case IntegerPart =>
        if IsDigit(s[0]) then Scan(s[1..], IntegerPart)
        else if s[0] == '.' then Scan(s[1..], FractionPart)
        else false
      case FractionPart => IsDigit(s[0]) && Scan(s[1..], FractionPart)
  }

  /** `-?\d*\.?\d*` matches the whole of `s`. */
  predicate MatchesNumber(s: string) {
    Scan(s, Sign)
  }

  /**
   * `IsTextValid`: `Regex.Match(text, "^-?\d*\.?\d*$").Success`. The match is
   * anchored at the start, and `$` accepts the end of the text or a
   * final '\n'.
   */
  predicate IsTextValid(text: string): (r: bool)
    ensures r <==> NumberShape(text) || (|text| > 0 && text[|text| - 1] == '\n' && NumberShape(text[..|text| - 1]))
  {
    MatchesNumberIffShape(text);
    if |text| > 0 then MatchesNumberIffShape(text[..|text| - 1]); (MatchesNumber(text) || (text[|text| - 1] == '\n' && MatchesNumber(text[..|text| - 1])))
    else MatchesNumber(text)
  }

  // ---------------------------------------------------------------------
  // The reference shape of a number-like text
  // ---------------------------------------------------------------------

  /** Only digits, '-' and '.'; a '-' only at the front; at most one '.'. */
  predicate NumberShape(s: string) {
    (forall i :: 0 <= i < |s| ==> IsDigit(s[i]) || s[i] == '-' || s[i] == '.') &&
    (forall i :: 0 < i < |s| ==> s[i] != '-') &&
    (forall i, j :: 0 <= i < j < |s| && s[i] == '.' ==> s[j] != '.')
  }

  predicate AllDigits(s: string) {
    forall i :: 0 <= i < |s| ==> IsDigit(s[i])
  }

  /** Digits with at most one '.' among them. */
  predicate UnsignedShape(s: string) {
    (forall i :: 0 <= i < |s| ==> IsDigit(s[i]) || s[i] == '.') &&
    (forall i, j :: 0 <= i < j < |s| && s[i] == '.' ==> s[j] != '.')
  }

  lemma {:induction false} FractionPartAcceptsDigits(s: string)
    ensures Scan(s, FractionPart) <==> AllDigits(s)
    decreases |s|
  {
    if s != [] {
      FractionPartAcceptsDigits(s[1..]);
      assert forall i :: 0 < i < |s| ==> s[i] == s[1..][i - 1];
    }
  }

  lemma {:induction false} IntegerPartAcceptsUnsigned(s: string)
    ensures Scan(s, IntegerPart) <==> UnsignedShape(s)
    decreases |s|
  {
    if s != [] {
      var rest := s[1..];
      assert forall i :: 0 < i < |s| ==> s[i] == rest[i - 1];
      if IsDigit(s[0]) {
        IntegerPartAcceptsUnsigned(rest);
        if UnsignedShape(rest) {
          forall i, j | 0 <= i < j < |s| && s[i] == '.' ensures s[j] != '.' {
            assert i > 0;
            assert rest[i - 1] == '.';
          }
        }
      } else if s[0] == '.' {
        FractionPartAcceptsDigits(rest);
        if UnsignedShape(s) {
          forall i | 0 <= i < |rest| ensures IsDigit(rest[i]) {
            assert s[i + 1] != '.';
          }
        }
      }
    }
  }

  /** The scanner accepts exactly the texts of `NumberShape`. */
  lemma MatchesNumberIffShape(s: string)
    ensures MatchesNumber(s) <==> NumberShape(s)
  {
    if s != [] && s[0] == '-' {
      var rest := s[1..];
      IntegerPartAcceptsUnsigned(rest);
      assert forall i :: 0 < i < |s| ==> s[i] == rest[i - 1];
      if NumberShape(s) {
        forall i | 0 <= i < |rest| ensures IsDigit(rest[i]) || rest[i] == '.' {
          assert s[i + 1] != '-';
        }
      }
    } else {
      IntegerPartAcceptsUnsigned(s);
      if s != [] && NumberShape(s) {
        forall i | 0 <= i < |s| ensures s[i] != '-' {
          if i == 0 {
            assert s[0] != '-';
          }
        }
      }
    }
  }

  /**
   * A valid text consists of digits, '-' and '.' (and possibly a final
   * '\n'), has at most one '-' and only at the front, and at most one '.'.
   */
  lemma ValidTextShape(text: string)
    requires IsTextValid(text)
    ensures forall i :: 0 <= i < |text| ==>
      IsDigit(text[i]) || text[i] == '-' || text[i] == '.' || (text[i] == '\n' && i == |text| - 1)
    ensures forall i :: 0 < i < |text| ==> text[i] != '-'
    ensures forall i, j :: 0 <= i < j < |text| && text[i] == '.' ==> text[j] != '.'
  {
    if MatchesNumber(text) {
      MatchesNumberIffShape(text);
    } else {
      var core := text[..|text| - 1];
      MatchesNumberIffShape(core);
      assert forall i :: 0 <= i < |core| ==> text[i] == core[i];
    }
  }

  /** The cases the pattern is meant to accept and refuse, including the final-newline case of `$`. */
  lemma IsTextValidExamples()
    ensures IsTextValid("") && IsTextValid("-") && IsTextValid(".") && IsTextValid("-1.5") && IsTextValid("42")
    ensures !IsTextValid("1.2.3") && !IsTextValid("--1") && !IsTextValid("1-") && !IsTextValid("1a")
    ensures IsTextValid("12\n") && !IsTextValid("1\n2") && !IsTextValid("12\n\n")
  {
    assert MatchesNumber("-1.5");
    assert Scan("2", IntegerPart);
    assert MatchesNumber("12");
    assert "12\n"[..2] == "12";
    assert "12\n\n"[..3] == "12\n";
    assert !MatchesNumber("12\n");
    assert !MatchesNumber("1\n");
  }

  // ---------------------------------------------------------------------
  // The text a typed or pasted input would produce
  // ---------------------------------------------------------------------

  /** What the handlers read from the `TextBox`: its text and its selection. */
  datatype TextBox = TextBox(text: string, selectionStart: nat, selectionLength: nat)

  /** A selection a `TextBox` can have: it lies within the text. */
  predicate ValidSelection(box: TextBox) {
    box.selectionStart + box.selectionLength <= |box.text|
  }

  /**
   * `GetFullText`: the text with the selection replaced by `input`; with
   * nothing selected, `input` inserted at the caret.
   */
  function GetFullText(box: TextBox, input: string): (r: string)
    requires ValidSelection(box)
    ensures |r| == |box.text| - box.selectionLength + |input|
    ensures r[..box.selectionStart] == box.text[..box.selectionStart]
    ensures r[box.selectionStart..box.selectionStart + |input|] == input
    ensures r[box.selectionStart + |input|..] == box.text[box.selectionStart + box.selectionLength..]
  {
    var start := box.selectionStart;
    if box.selectionLength > 0 then box.text[..start] + input + box.text[start + box.selectionLength..]
    else box.text[..start] + input + box.text[start..]
  }

  /** Selecting everything and typing or pasting replaces the whole text. */
  lemma GetFullTextReplacesAll(text: string, input: string)
    ensures GetFullText(TextBox(text, 0, |text|), input) == input
  {
    var r := GetFullText(TextBox(text, 0, |text|), input);
    assert r == r[0..|input|];
  }

  /** An input holding a character other than a digit, '-', '.' or '\n' never gives a valid text. */
  lemma NonNumericInputRejected(box: TextBox, input: string, k: nat)
    requires ValidSelection(box)
    requires k < |input| && !IsDigit(input[k]) && input[k] !in {'-', '.', '\n'}
    ensures !IsTextValid(GetFullText(box, input))
  {
    var r := GetFullText(box, input);
    var start := box.selectionStart;
    assert r[start..start + |input|][k] == input[k];
    assert r[start + k] == input[k];
    if IsTextValid(r) {
      ValidTextShape(r);
    }
  }

  /** Typing a digit at the end of a number-like text keeps it valid. */
  lemma AppendDigitAccepted(text: string, digit: char)
    requires MatchesNumber(text) && IsDigit(digit)
    ensures IsTextValid(GetFullText(TextBox(text, |text|, 0), [digit]))
  {
    var r := GetFullText(TextBox(text, |text|, 0), [digit]);
    assert r == text + [digit];
    MatchesNumberIffShape(text);
    AppendDigitKeepsShape(text, digit);
  }

  lemma AppendDigitKeepsShape(s: string, digit: char)
    requires NumberShape(s) && IsDigit(digit)
    ensures NumberShape(s + [digit])
  {
    var r := s + [digit];
    assert forall i :: 0 <= i < |s| ==> r[i] == s[i];
  }

  // ---------------------------------------------------------------------
  // The event handlers
  // ---------------------------------------------------------------------

  /** The keys the key handler looks at; every other key is `OtherKey`. */
  datatype Key = Space | Delete | Back | OtherKey(code: int)

  /** `TextCompositionEventArgs`: the typed text and the `Handled` flag the handler sets. */
  class TextCompositionEventArgs {
    const text: string
    var handled: bool

    constructor (text: string)
      ensures this.text == text && !handled
    {
      this.text := text;
      handled := false;
    }
  }

  /** `KeyEventArgs`: the key pressed and the `Handled` flag. */
  class KeyEventArgs {
    const key: Key
    var handled: bool

    constructor (key: Key)
      ensures this.key == key && !handled
    {
      this.key := key;
      handled := false;
    }
  }

  /** What a paste carries: a string, or data of some other format. */
  datatype DataObject = StringData(s: string) | OtherData

  /** `DataObjectPastingEventArgs`: the pasted data and whether `CancelCommand` was called. */
  class PastingEventArgs {
    const dataObject: DataObject
    var commandCancelled: bool

    constructor (dataObject: DataObject)
      ensures this.dataObject == dataObject && !commandCancelled
    {
      this.dataObject := dataObject;
      commandCancelled := false;
    }

    method CancelCommand()
      modifies this
      ensures commandCancelled
    {
      commandCancelled := true;
    }
  }

  /** `TextBox_PreviewTextInput`: typed text is swallowed iff the text it would produce is not valid. */
  method PreviewTextInput(sender: TextBox, e: TextCompositionEventArgs)
    requires ValidSelection(sender)
    modifies e
    ensures e.handled <==> !IsTextValid(GetFullText(sender, e.text))
  {
    var text := GetFullText(sender, e.text);
    e.handled := !IsTextValid(text);
  }

  /** `NumericTextBox_PreviewKeyDown`: Space is always swallowed, Delete and Back only when one character is left. */
  method PreviewKeyDown(sender: TextBox, e: KeyEventArgs)
    modifies e
    ensures e.handled <==> e.key == Space || (|sender.text| == 1 && (e.key == Delete || e.key == Back))
  {
    e.handled := e.key == Space || (|sender.text| == 1 && (e.key == Delete || e.key == Back));
  }

  /** `TextBox_Pasting`: cancels a paste that is not a string or would produce an invalid text. */
  method Pasting(sender: TextBox, e: PastingEventArgs)
    requires ValidSelection(sender)
    modifies e
    ensures e.commandCancelled <==>
      old(e.commandCancelled) || !e.dataObject.StringData? || !IsTextValid(GetFullText(sender, e.dataObject.s))
  {
    if e.dataObject.StringData? {
      var text := GetFullText(sender, e.dataObject.s);
      if !IsTextValid(text) {
        e.CancelCommand();
      }
    } else {
      e.CancelCommand();
    }
  }
}
