/**
  The built-in validators `required!`, `max_length!`, `min_length!` and
  `length!`. Each macro expands to a closure that looks only at the answer's
  `is_empty()` / `len()` and a threshold, and returns `Ok(())` or
  `Err(message)`. The same closure is used as a `StringValidator` (over
  `&str`, where `len()` counts UTF-8 bytes) and as a `MultiOptionValidator`
  (over `&[OptionAnswer]`, where `len()` counts the chosen options), so the
  model states it once over `seq<T>` and instantiates it twice.
*/
module Validator {
  import opened Results
  import Decimal
  import Utf8

  /** What every validator returns: Rust's `Result<(), String>`. */
  type Verdict = Result<(), string>

  /** One expanded built-in validator: its kind, threshold and the message it fails with. */
  datatype BuiltinValidator =
    | Required(message: string)
    | MaxLength(limit: nat, message: string)
    | MinLength(limit: nat, message: string)
    | Length(limit: nat, message: string)

  /** An answer to a multi-option prompt: the option's index in the original list and its text. */
  datatype OptionAnswer = OptionAnswer(index: nat, value: string)

  const RequiredMessage: string := "A response is required."
  const MaxLengthPrefix: string := "The length of the response should be at most "
  const MinLengthPrefix: string := "The length of the response should be at least "
  const LengthPrefix: string := "The length of the response should be "

  /** The closure a built-in validator expands to, applied to an answer of length `|a|`. */
  function Validate<T>(v: BuiltinValidator, a: seq<T>): (r: Verdict)
    ensures v.Required? ==> (r.Ok? <==> |a| != 0)
    ensures v.MaxLength? ==> (r.Ok? <==> |a| <= v.limit)
    ensures v.MinLength? ==> (r.Ok? <==> |a| >= v.limit)
    ensures v.Length? ==> (r.Ok? <==> |a| == v.limit)
    ensures r.Err? ==> r.error == v.message
  {
    match v
    case Required(message) =>
      if |a| == 0 then Err(message) else Ok(())
    case MaxLength(limit, message) =>
      if |a| <= limit then Ok(()) else Err(message)
    case MinLength(limit, message) =>
      if |a| >= limit then Ok(()) else Err(message)
    case Length(limit, message) =>
      if |a| == limit then Ok(()) else Err(message)
  }

  /** `StringValidator`: the closure applied to a `&str`, whose length is its UTF-8 byte count. */
  function ValidateStr(v: BuiltinValidator, s: string): (r: Verdict)
    ensures r.Err? ==> r.error == v.message
    ensures v.Required? ==> (r.Ok? <==> |Utf8.Encode(s)| != 0)
    ensures v.MaxLength? ==> (r.Ok? <==> |Utf8.Encode(s)| <= v.limit)
    ensures v.MinLength? ==> (r.Ok? <==> |Utf8.Encode(s)| >= v.limit)
    ensures v.Length? ==> (r.Ok? <==> |Utf8.Encode(s)| == v.limit)
  {
    Validate(v, Utf8.Encode(s))
  }

  /** `MultiOptionValidator`: the closure applied to the chosen options. */
  function ValidateOptions(v: BuiltinValidator, answers: seq<OptionAnswer>): (r: Verdict)
    ensures r.Err? ==> r.error == v.message
    ensures v.Required? ==> (r.Ok? <==> |answers| != 0)
    ensures v.MaxLength? ==> (r.Ok? <==> |answers| <= v.limit)
    ensures v.MinLength? ==> (r.Ok? <==> |answers| >= v.limit)
    ensures v.Length? ==> (r.Ok? <==> |answers| == v.limit)
  {
    Validate(v, answers)
  }

  /** `required!()`: the default message. */
  function RequiredDefault(): (v: BuiltinValidator)
    ensures v.Required? && v.message == "A response is required."
  {
    Required(RequiredMessage)
  }

  /** `max_length!(n)`: the default message ends with `n` in decimal. */
  function MaxLengthDefault(n: nat): (v: BuiltinValidator)
    ensures v.MaxLength? && v.limit == n
    ensures ThresholdIn(MaxLengthPrefix, v.message) == Some(n)
  {
    var v := MaxLength(n, MaxLengthPrefix + Decimal.Show(n));
    ThresholdInShow(MaxLengthPrefix, n);
    v
  }

  /** `min_length!(n)`: the default message ends with `n` in decimal. */
  function MinLengthDefault(n: nat): (v: BuiltinValidator)
    ensures v.MinLength? && v.limit == n
    ensures ThresholdIn(MinLengthPrefix, v.message) == Some(n)
  {
    var v := MinLength(n, MinLengthPrefix + Decimal.Show(n));
    ThresholdInShow(MinLengthPrefix, n);
    v
  }

  /** `length!(n)`: the default message ends with `n` in decimal. */
  function LengthDefault(n: nat): (v: BuiltinValidator)
    ensures v.Length? && v.limit == n
    ensures ThresholdIn(LengthPrefix, v.message) == Some(n)
  {
    var v := Length(n, LengthPrefix + Decimal.Show(n));
    ThresholdInShow(LengthPrefix, n);
    v
  }

  /** The number a message states after `prefix`, if it is `prefix` followed by a decimal number. */
  function ThresholdIn(prefix: string, message: string): Option<nat>
  {
    if prefix <= message then Decimal.Parse(message[|prefix|..]) else None
  }

  lemma ThresholdInShow(prefix: string, n: nat)
    ensures ThresholdIn(prefix, prefix + Decimal.Show(n)) == Some(n)
  {
    var m := prefix + Decimal.Show(n);
    assert m[|prefix|..] == Decimal.Show(n);
    Decimal.ParseShow(n);
  }

  /** `max_length` is monotone in its limit: what passes under `n` passes under any larger limit. */
  lemma MaxLengthMonotone<T>(n: nat, m: nat, msgN: string, msgM: string, a: seq<T>)
    requires n <= m
    ensures Validate(MaxLength(n, msgN), a).Ok? ==> Validate(MaxLength(m, msgM), a).Ok?
  {
  }

  /** `min_length` is antitone in its limit: what passes under `n` passes under any smaller limit. */
  lemma MinLengthAntitone<T>(n: nat, m: nat, msgN: string, msgM: string, a: seq<T>)
    requires m <= n
    ensures Validate(MinLength(n, msgN), a).Ok? ==> Validate(MinLength(m, msgM), a).Ok?
  {
  }

  /** `length(n)` accepts exactly what both `min_length(n)` and `max_length(n)` accept. */
  lemma LengthIsMinAndMax<T>(n: nat, msg: string, msgMin: string, msgMax: string, a: seq<T>)
    ensures Validate(Length(n, msg), a).Ok?
        <==> Validate(MinLength(n, msgMin), a).Ok? && Validate(MaxLength(n, msgMax), a).Ok?
  {
  }

  /** `required` is `min_length(1)` and the negation of `length(0)` and of `max_length(0)`, up to the message. */
  lemma RequiredIsMinLengthOne<T>(msg: string, a: seq<T>)
    ensures Validate(Required(msg), a) == Validate(MinLength(1, msg), a)
    ensures Validate(Required(msg), a).Ok? <==> Validate(Length(0, msg), a).Err?
    ensures Validate(Required(msg), a).Ok? <==> Validate(MaxLength(0, msg), a).Err?
  {
  }

  /** A validator sees nothing of the answer but its length. */
  lemma OnlyLengthMatters<T, U>(v: BuiltinValidator, a: seq<T>, b: seq<U>)
    requires |a| == |b|
    ensures Validate(v, a) == Validate(v, b)
  {
  }

  /** The default messages of different thresholds, and of `max_length` and `length`, never coincide. */
  lemma DefaultMessagesDistinguish(n: nat, m: nat)
    ensures n != m ==> MaxLengthDefault(n).message != MaxLengthDefault(m).message
    ensures n != m ==> MinLengthDefault(n).message != MinLengthDefault(m).message
    ensures n != m ==> LengthDefault(n).message != LengthDefault(m).message
    ensures MaxLengthDefault(n).message != LengthDefault(m).message
    ensures MinLengthDefault(n).message != LengthDefault(m).message
    ensures MaxLengthDefault(n).message != MinLengthDefault(m).message
  {
    var maxMsg := MaxLengthDefault(n).message;
    var minMsg := MinLengthDefault(n).message;
    var lenMsg := LengthDefault(m).message;
    assert maxMsg[|LengthPrefix|] == 'a';
    assert minMsg[|LengthPrefix|] == 'a';
    assert Decimal.IsDigit(lenMsg[|LengthPrefix|]) by {
      assert lenMsg[|LengthPrefix|] == Decimal.Show(m)[0];
    }
    assert MaxLengthDefault(n).message[|LengthPrefix| + 3] == 'm';
    assert MinLengthDefault(m).message[|LengthPrefix| + 3] == 'l';
  }

  /** On a `&str`, `required` agrees with the character view: a string is empty iff its bytes are. */
  lemma RequiredStrAgreesWithChars(msg: string, s: string)
    ensures ValidateStr(Required(msg), s) == Validate(Required(msg), s)
  {
    Utf8.IsEmptyAgrees(s);
  }

  /** On ASCII text bytes and characters coincide, so every validator agrees with the character view. */
  lemma AsciiStrAgreesWithChars(v: BuiltinValidator, s: string)
    requires forall i :: 0 <= i < |s| ==> Utf8.IsAscii(s[i])
    ensures ValidateStr(v, s) == Validate(v, s)
  {
    Utf8.ByteLengthIsCharCountIffAscii(s);
  }

  /** A single non-ASCII character already exceeds `max_length(1)`: the limit is on bytes. */
  lemma StrLimitIsOnBytes()
    ensures |"é"| == 1
    ensures ValidateStr(MaxLength(1, "too long"), "é") == Err("too long")
    ensures ValidateStr(Length(2, "wrong length"), "é").Ok?
  {
    assert Utf8.Encode("é") == Utf8.EncodeChar('é');
  }

  /** On options, the limit counts chosen options, not the length of their text. */
  lemma OptionsCountChoices(v: BuiltinValidator, answers: seq<OptionAnswer>, texts: seq<string>)
    requires |answers| == |texts|
    ensures ValidateOptions(v, answers) == Validate(v, texts)
  {
  }
}
