/** The quick entry field of a running game: edits are kept only when they are
    empty or one or two digits; submitting checks the text against 1..90 and the
    numbers already drawn, and either hands the number on or shows an error. */
module QuickInput {
  import opened Wrappers
  import opened Text

  const EMPTY_ERROR: string := "Veuillez entrer un numéro"
  const NAN_ERROR: string := "Veuillez entrer un nombre valide"
  const RANGE_ERROR: string := "Le numéro doit être entre 1 et 90"

  function DrawnError(num: int): string {
    "Le numéro " + IntToString(num) + " a déjà été tiré"
  }

  /** What handleChange lets through: the empty text, or one or two digits. */
  predicate AcceptableEdit(v: string) {
    v == [] || (AllDigits(v) && |v| <= 2)
  }

  /** A parse result the field hands on: a number in 1..90 not drawn yet. */
  predicate Submittable(parsed: Option<int>, drawnNumbers: seq<int>) {
    parsed.Some? && 1 <= parsed.value <= 90 && parsed.value !in drawnNumbers
  }

  /** The text of the field and the message under it. */
  class QuickInputState {
    var value: string
    var error: Option<string>

    constructor()
      ensures value == [] && error == None
    {
      value := [];
      error := None;
    }

    /** Every text the edits can produce. */
    ghost predicate Valid()
      reads this
    {
      AcceptableEdit(value)
    }

    /** handleChange: a text with a non-digit, or longer than two characters,
        is ignored; any other text is kept and clears the message. */
    method HandleChange(newValue: string)
      modifies this
      ensures AcceptableEdit(newValue) ==> value == newValue && error == None
      ensures !AcceptableEdit(newValue) ==> value == old(value) && error == old(error)
      ensures old(Valid()) ==> Valid()
    {
      if newValue != [] && !AllDigits(newValue) {
        return;
      }
      if |newValue| > 2 {
        return;
      }
      value := newValue;
      error := None;
    }

    /** validateAndSubmit, against the decision `Check` on the text. */
    method ValidateAndSubmit(drawnNumbers: seq<int>) returns (submitted: Option<int>)
      modifies this
      ensures var o := Check(old(value), drawnNumbers);
        submitted == o.submitted && error == o.message && value == (if o.cleared then [] else old(value))
      ensures old(Valid()) ==> Valid()
    {
      var trimmedValue := Trim(value);
      if trimmedValue == [] {
        error := Some(EMPTY_ERROR);
        return None;
      }
      var num := ParseInt(trimmedValue);
      if num.None? {
        error := Some(NAN_ERROR);
        value := [];
        return None;
      }
      if num.value < 1 || num.value > 90 {
        error := Some(RANGE_ERROR);
        value := [];
        return None;
      }
      if num.value in drawnNumbers {
        error := Some(DrawnError(num.value));
        value := [];
        return None;
      }
      submitted := Some(num.value);
      value := [];
      error := None;
    }
  }

  /** What a submission does: the number handed on, if any, the message shown,
      if any, and whether the field is emptied. */
  datatype Outcome = Outcome(submitted: Option<int>, message: Option<string>, cleared: bool)

  /** The checks of validateAndSubmit in their order: blank, not a number, out
      of 1..90, already drawn. */
  function Check(text: string, drawnNumbers: seq<int>): Outcome {
    var t := Trim(text);
    if t == [] then Outcome(None, Some(EMPTY_ERROR), false)
    else
      match ParseInt(t)
      case None => Outcome(None, Some(NAN_ERROR), true)
      case Some(n) =>
        if n < 1 || n > 90 then Outcome(None, Some(RANGE_ERROR), true)
        else if n in drawnNumbers then Outcome(None, Some(DrawnError(n)), true)
        else Outcome(Some(n), None, true)
  }

  /** A number is handed on exactly when the trimmed text parses to a number in
      1..90 not drawn yet; then no message is shown, and otherwise one always
      is. Only a blank text leaves the field as it was. */
  lemma CheckSubmits(text: string, drawnNumbers: seq<int>)
    ensures var o := Check(text, drawnNumbers); var t := Trim(text);
      && (o.submitted.Some? <==> t != [] && Submittable(ParseInt(t), drawnNumbers))
      && (o.submitted.Some? ==> o.submitted == ParseInt(t) && o.message == None)
      && (o.submitted.None? ==> o.message.Some?)
      && (o.cleared <==> t != [])
  {
  }

  /** Each rejection shows its own message: a blank text, a text with no
      number, a number outside 1..90 and a drawn number are told apart. */
  lemma CheckMessages(text: string, drawnNumbers: seq<int>)
    ensures var o := Check(text, drawnNumbers); var t := Trim(text); var p := ParseInt(t);
      && (o.message == Some(EMPTY_ERROR) <==> t == [])
      && (o.message == Some(NAN_ERROR) <==> t != [] && p.None?)
      && (o.message == Some(RANGE_ERROR) <==> t != [] && p.Some? && !(1 <= p.value <= 90))
      && (t != [] && p.Some? && 1 <= p.value <= 90 && p.value in drawnNumbers ==> o.message == Some(DrawnError(p.value)))
  {
    var t := Trim(text);
    var p := ParseInt(t);
    MessagesDiffer(if p.Some? then p.value else 0);
  }

  /** With the edit rules in force the text is never rejected as not a number,
      and a number is handed on exactly when the text is one or two digits whose
      value lies in 1..90 and has not been drawn. */
  lemma CheckAfterEdits(text: string, drawnNumbers: seq<int>)
    requires AcceptableEdit(text)
    ensures Check(text, drawnNumbers).message != Some(NAN_ERROR)
    ensures Check(text, drawnNumbers).submitted.Some?
        <==> text != [] && 1 <= DigitsValue(text) <= 90 && DigitsValue(text) !in drawnNumbers
  {
    MessagesDiffer(0);
    if text != [] {
      AcceptedTextParses(text);
      MessagesDiffer(DigitsValue(text));
    }
  }

  /** A text the edits let through that is not empty parses, without trimming
      anything, to its decimal value, which is at most 99. */
  lemma AcceptedTextParses(v: string)
    requires AcceptableEdit(v) && v != []
    ensures Trim(v) == v
    ensures ParseInt(v) == Some(DigitsValue(v)) && DigitsValue(v) <= 99
  {
    TrimOfDigits(v);
    ParseIntOfDigits(v);
    var first := v[..1];
    assert first[..0] == [];
    assert DigitsValue(first) == DigitVal(v[0]) <= 9;
    if |v| == 2 {
      assert v[..|v| - 1] == first;
      assert DigitsValue(v) == 10 * DigitsValue(first) + DigitVal(v[1]);
    } else {
      assert v == first;
    }
  }

  /** The four messages differ, so the message names the case. */
  lemma MessagesDiffer(num: int)
    ensures EMPTY_ERROR != NAN_ERROR && EMPTY_ERROR != RANGE_ERROR && NAN_ERROR != RANGE_ERROR
    ensures DrawnError(num) != EMPTY_ERROR && DrawnError(num) != NAN_ERROR && DrawnError(num) != RANGE_ERROR
  {
    var s := IntToString(num);
    assert s != [] && (IsDigit(s[0]) || s[0] == '-');
    assert DrawnError(num)[10] == s[0];
    assert RANGE_ERROR[10] == 'd';
    assert DrawnError(num)[0] != EMPTY_ERROR[0] && DrawnError(num)[0] != NAN_ERROR[0];
  }
}
