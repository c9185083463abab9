/**
 * Three WPF value converters: an arrow for a pair of integers, a pack URI
 * of an image for a `FeedbackType`, and the first character of a value's
 * string form.
 *
 * A .NET `object` is the datatype `Object`: null, the
 * `DependencyProperty.UnsetValue` marker, a boxed 32-bit integer, string,
 * character or `FeedbackType`, or any other object, represented by what its
 * `ToString` returns.
 */
module Converters {
  import Wrappers

  newtype int32 = x: int | -0x8000_0000 <= x < 0x8000_0000

  /**
   * The members of `FeedbackType` the image converter names; `Undefined`
   * stands for any other value of the enum's underlying integer.
   */
  datatype FeedbackType = None | Error | Success | Validation | Warning | Information | Question | Undefined(code: int32)

  datatype Object =
    | Null
    | Unset
    | Int(i: int32)
    | Str(s: string)
    | Char(c: char)
    | Feedback(f: FeedbackType)
    | Other(text: string)

  /** A `targetType` argument: `ImageSource`, or any other type. */
  datatype Type = ImageSource | OtherType(name: string)

  // ---------------------------------------------------------------------
  // String forms
  // ---------------------------------------------------------------------

  function DigitChar(d: nat): char
    requires d < 10
  {
    ['0', '1', '2', '3', '4', '5', '6', '7', '8', '9'][d]
  }

  function DigitValue(c: char): nat {
    if '0' <= c <= '9' then (c as int - '0' as int) as nat else 0
  }

  /** The decimal digits of `n`, most significant first, without leading zeros. */
  function NatToString(n: nat): (r: string)
    ensures |r| > 0
    ensures forall i :: 0 <= i < |r| ==> '0' <= r[i] <= '9'
    decreases n
  {
    if n < 10 then [DigitChar(n)] else NatToString(n / 10) + [DigitChar(n % 10)]
  }

  /** The number a string of decimal digits denotes. */
  function DigitsValue(s: string): nat
    decreases |s|
  {
    if s == [] then 0 else DigitsValue(s[..|s| - 1]) * 10 + DigitValue(s[|s| - 1])
  }

  /** Reading the digits back gives the number, and only zero starts with '0'. */
  lemma {:induction false} NatToStringRoundTrip(n: nat)
    ensures DigitsValue(NatToString(n)) == n
    ensures NatToString(n)[0] == '0' <==> n == 0
    decreases n
  {
    var r := NatToString(n);
    if n < 10 {
      assert DigitValue(DigitChar(n)) == n;
      assert r[..0] == [];
    } else {
      NatToStringRoundTrip(n / 10);
      assert r[..|r| - 1] == NatToString(n / 10);
      assert DigitValue(DigitChar(n % 10)) == n % 10;
    }
  }

  /** `Int32.ToString()`: a '-' for negative values, then the digits. */
  function IntToString(n: int): string {
    if n < 0 then "-" + NatToString(-n) else NatToString(n)
  }

  /** The enum's `ToString`: the member's name, or the number for an undefined value. */
  function FeedbackTypeName(f: FeedbackType): string {
    match f
    case None => "None"
    case Error => "Error"
    case Success => "Success"
    case Validation => "Validation"
    case Warning => "Warning"
    case Information => "Information"
    case Question => "Question"
    case Undefined(code) => IntToString(code as int)
  }

  /** `ToString` of a non-null object. */
  function ToString(value: Object): string
    requires value != Null
  {
    match value
    case Unset => "{DependencyProperty.UnsetValue}"
    case Int(i) => IntToString(i as int)
    case Str(s) => s
    case Char(c) => [c]
    case Feedback(f) => FeedbackTypeName(f)
    case Other(text) => text
  }

  // ---------------------------------------------------------------------
  // HigherLowerConverter
  // ---------------------------------------------------------------------

  /** Exactly two values, both boxed integers. */
  predicate IsIntPair(values: Wrappers.Option<seq<Object>>) {
    values != Wrappers.Null && |values.value| == 2 && values.value[0].Int? && values.value[1].Int?
  }

  /**
   * `HigherLowerConverter.Convert`: Unset unless the input is a pair of
   * integers; then "->" when the current value is the higher one and "<-"
   * otherwise.
   */
  function HigherLowerConvert(values: Wrappers.Option<seq<Object>>, targetType: Type): (r: Object)
    ensures r == Unset || r == Str("->") || r == Str("<-")
    ensures r == Unset <==> !IsIntPair(values)
    ensures r == Str("->") <==> IsIntPair(values) && values.value[0].i > values.value[1].i
    ensures r == Str("<-") <==> IsIntPair(values) && values.value[0].i <= values.value[1].i
  {
    if values == Wrappers.Null || |values.value| != 2 || values.value[0] == Null || values.value[1] == Null
      || !values.value[0].Int? || !values.value[1].Int?
    then Unset
    else
      var intValue := values.value[0].i;
      var previousValue := values.value[1].i;
      if intValue > previousValue then Str("->") else Str("<-")
  }

  /** Swapping two different integers turns the arrow round. */
  lemma HigherLowerAntisymmetric(a: int32, b: int32, targetType: Type)
    requires a != b
    ensures HigherLowerConvert(Wrappers.Some([Int(a), Int(b)]), targetType) != HigherLowerConvert(Wrappers.Some([Int(b), Int(a)]), targetType)
  {
  }

  /** `HigherLowerConverter.ConvertBack`: two Unset values, whatever it is given. */
  function HigherLowerConvertBack(value: Object, targetTypes: seq<Type>): (r: seq<Object>)
    ensures |r| == 2 && forall i :: 0 <= i < |r| ==> r[i] == Unset
  {
    [Unset, Unset]
  }

  // ---------------------------------------------------------------------
  // FeedbackTypeToImageSourceConverter
  // ---------------------------------------------------------------------

  const PackUriPrefix: string := "pack://application:,,,/CompanyName.ApplicationName;component/Images/"
  const PngExtension: string := ".png"

  /** The `switch`: the image for a feedback type, or none for `None` and undefined values. */
  function ImageName(f: FeedbackType): Wrappers.Option<string> {
    match f
    case None => Wrappers.Null
    case Error => Wrappers.Some("Error_16")
    case Success => Wrappers.Some("Success_16")
    case Validation => Wrappers.Some("Warning_16")
    case Warning => Wrappers.Some("Warning_16")
    case Information => Wrappers.Some("Information_16")
    case Question => Wrappers.Some("Question_16")
    case Undefined(_) => Wrappers.Null
  }

  /** `FeedbackTypeToImageSourceConverter.Convert`: the pack URI of the feedback type's image, or null. */
  function FeedbackTypeToImageSource(value: Object, targetType: Type): (r: Object)
    ensures r == Null || (r.Str? && PackUriPrefix <= r.s && |r.s| > |PackUriPrefix| + |PngExtension|)
  {
    if value == Null || !value.Feedback? || targetType != ImageSource then Null
    else match ImageName(value.f)
      case Null => Null
      case Some(imageName) => Str(PackUriPrefix + imageName + PngExtension)
  }

  /** Null unless a `FeedbackType` with an image is converted to an `ImageSource`; the URI ends in the image name and ".png". */
  lemma FeedbackTypeToImageSourceCases(value: Object, targetType: Type)
    ensures FeedbackTypeToImageSource(value, targetType) != Null <==>
      value.Feedback? && targetType == ImageSource && ImageName(value.f) != Wrappers.Null
    ensures FeedbackTypeToImageSource(value, targetType) != Null ==>
      FeedbackTypeToImageSource(value, targetType) == Str(PackUriPrefix + ImageName(value.f).value + PngExtension)
  {
  }

  /** `Validation` and `Warning` share the warning image; `None` and undefined values have none. */
  lemma ImageNamesShared(code: int32)
    ensures ImageName(Validation) == ImageName(Warning) == Wrappers.Some("Warning_16")
    ensures ImageName(None) == Wrappers.Null && ImageName(Undefined(code)) == Wrappers.Null
  {
  }

  /** The other named members have pairwise different images, and so pairwise different URIs. */
  lemma ImageNamesDistinct(f: FeedbackType, g: FeedbackType)
    requires f in {Error, Success, Information, Question, Warning}
    requires g in {Error, Success, Information, Question, Warning}
    requires f != g
    ensures ImageName(f) != ImageName(g)
    ensures FeedbackTypeToImageSource(Feedback(f), ImageSource) != FeedbackTypeToImageSource(Feedback(g), ImageSource)
  {
    PackUriInjective(ImageName(f).value, ImageName(g).value);
  }

  /** Different image names give different pack URIs. */
  lemma PackUriInjective(a: string, b: string)
    ensures PackUriPrefix + a + PngExtension == PackUriPrefix + b + PngExtension ==> a == b
  {
    var u, v := PackUriPrefix + a + PngExtension, PackUriPrefix + b + PngExtension;
    if u == v {
      assert |a| == |b|;
      assert a == u[|PackUriPrefix|..|PackUriPrefix| + |a|] == v[|PackUriPrefix|..|PackUriPrefix| + |b|] == b;
    }
  }

  /** `FeedbackTypeToImageSourceConverter.ConvertBack`: always null. */
  function FeedbackTypeToImageSourceBack(value: Object, targetType: Type): (r: Object)
    ensures r.Null?
  {
    Null
  }

  // ---------------------------------------------------------------------
  // StringToFirstLetterConverter
  // ---------------------------------------------------------------------

  /** A converter call either returns a value or throws. */
  datatype Outcome = Returned(value: Object) | Threw(exception: string)

  const IndexOutOfRange: string := "IndexOutOfRangeException"

  /**
   * `StringToFirstLetterConverter.Convert`: Unset for null, otherwise the
   * first character of `ToString()`; indexing an empty string throws.
   */
  function FirstLetter(value: Object, targetType: Type): (r: Outcome)
    ensures r.Threw? <==> value != Null && ToString(value) == ""
    ensures r == Returned(Unset) <==> value == Null
    ensures value != Null && ToString(value) != "" ==> r == Returned(Char(ToString(value)[0]))
  {
    if value == Null then Returned(Unset)
    else
      var text := ToString(value);
      if |text| == 0 then Threw(IndexOutOfRange) else Returned(Char(text[0]))
  }

  /** Integers, characters and feedback types never make it throw; an integer gives '-' iff it is negative. */
  lemma FirstLetterOfKnownValues(n: int32, c: char, f: FeedbackType, targetType: Type)
    ensures FirstLetter(Int(n), targetType).Returned?
    ensures FirstLetter(Int(n), targetType).value == Char('-') <==> n < 0
    ensures FirstLetter(Char(c), targetType) == Returned(Char(c))
    ensures FirstLetter(Feedback(f), targetType).Returned?
  {
    if n >= 0 {
      assert '0' <= NatToString(n as int)[0] <= '9';
    }
    match f
    case Undefined(code) =>
      if code >= 0 {
        assert |NatToString(code as int)| > 0;
      }
    case _ =>
  }

  /** A non-empty string gives its first character; the empty string throws. */
  lemma FirstLetterOfString(s: string, targetType: Type)
    ensures s != "" ==> FirstLetter(Str(s), targetType) == Returned(Char(s[0]))
    ensures s == "" ==> FirstLetter(Str(s), targetType) == Threw(IndexOutOfRange)
  {
  }

  /** `StringToFirstLetterConverter.ConvertBack`: always Unset. */
  function FirstLetterBack(value: Object, targetType: Type): (r: Object)
    ensures r.Unset?
  {
    Unset
  }
}
