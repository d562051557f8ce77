/**
 * The form rules of `schemas/validationSchemas.ts`, as predicates over the
 * values a form holds. Numeric form fields are whole numbers here; a
 * missing or unparsable number is `None`.
 */
module Validation {
  import opened Wrappers
  import opened Strings

  const MinName := 2
  const MinCity := 4
  const MinPassword := 6
  const MinYear := 1900
  const MaxTreadDepth := 12
  const MaxTreadPercent := 100

  predicate IsLowerAscii(c: char) { 'a' <= c <= 'z' }
  predicate IsUpperAscii(c: char) { 'A' <= c <= 'Z' }
  /** `\d`: an ASCII digit. */
  predicate IsDigit(c: char) { '0' <= c <= '9' }
  /** `[^a-zA-Z0-9]`. */
  predicate IsSpecial(c: char) { !IsLowerAscii(c) && !IsUpperAscii(c) && !IsDigit(c) }

  /** Whether some character of `s` satisfies `p`, found by scanning from the front. */
  function Matches(s: string, p: char -> bool): (r: bool)
    ensures r <==> exists i :: 0 <= i < |s| && p(s[i])
  {
    if |s| == 0 then false
    else if p(s[0]) then true
    else
      var rest := Matches(s[1..], p);
      assert forall i :: 1 <= i < |s| ==> s[i] == s[1..][i - 1];
      rest
  }

  /** The rules of a new password, in the order they are declared. */
  datatype PasswordRule = TooShort | NoLower | NoUpper | NoDigit | NoSpecial

  /** Whether `p` breaks `rule`. */
  predicate BreaksPasswordRule(p: string, rule: PasswordRule) {
    match rule
    case TooShort => |p| < MinPassword
    case NoLower => !Matches(p, IsLowerAscii)
    case NoUpper => !Matches(p, IsUpperAscii)
    case NoDigit => !Matches(p, IsDigit)
    case NoSpecial => !Matches(p, IsSpecial)
  }

  /** The password rules that `p` breaks. */
  function PasswordFailures(p: string): (r: set<PasswordRule>)
    ensures TooShort in r <==> |p| < MinPassword
    ensures NoLower in r <==> forall i :: 0 <= i < |p| ==> !IsLowerAscii(p[i])
    ensures NoUpper in r <==> forall i :: 0 <= i < |p| ==> !IsUpperAscii(p[i])
    ensures NoDigit in r <==> forall i :: 0 <= i < |p| ==> !IsDigit(p[i])
    ensures NoSpecial in r <==> forall i :: 0 <= i < |p| ==> !IsSpecial(p[i])
  {
    set rule: PasswordRule | BreaksPasswordRule(p, rule)
  }

  /** A new password is accepted when it breaks no rule. */
  predicate NewPasswordValid(p: string) {
    PasswordFailures(p) == {}
  }

  /** A password whose characters are all letters or digits is refused, whatever its length. */
  lemma AlphanumericPasswordRefused(p: string)
    requires forall i :: 0 <= i < |p| ==> IsLowerAscii(p[i]) || IsUpperAscii(p[i]) || IsDigit(p[i])
    ensures !NewPasswordValid(p)
    ensures NoSpecial in PasswordFailures(p)
  {
  }

  /**
   * The password rule as a whole: at least six characters, with an ASCII
   * lower-case letter, an ASCII upper-case letter, a digit and a character
   * that is none of these.
   */
  lemma NewPasswordValidIff(p: string)
    ensures NewPasswordValid(p) <==>
      |p| >= MinPassword
      && (exists i :: 0 <= i < |p| && IsLowerAscii(p[i]))
      && (exists i :: 0 <= i < |p| && IsUpperAscii(p[i]))
      && (exists i :: 0 <= i < |p| && IsDigit(p[i]))
      && (exists i :: 0 <= i < |p| && IsSpecial(p[i]))
  {
    var r := PasswordFailures(p);
    if r != {} {
      var x :| x in r;
    }
  }

  /** The confirmation field: required (non-empty) and equal to the password it refers to. */
  function ConfirmValid(confirm: string, password: string): (r: bool)
    ensures r ==> confirm == password && password != ""
    ensures confirm == password && confirm != "" ==> r
  {
    confirm != "" && confirm == password
  }

  /** The name rule: at least two characters once the surrounding whitespace is trimmed. */
  function NameValid(name: string): (r: bool)
    ensures r ==> |name| >= MinName && NonSpaces(name) != []
    ensures !AllSpaces(name) && !IsJsSpace(name[0]) && !IsJsSpace(name[|name| - 1]) ==> (r <==> |name| >= MinName)
    ensures r <==> exists i, j :: TrimBounds(name, i, j) && j - i >= MinName
  {
    TrimmedLengthAtLeast(name, MinName)
  }

  /** The city rule: at least four characters once trimmed. */
  function CityValid(city: string): (r: bool)
    ensures r ==> |city| >= MinCity && NonSpaces(city) != []
    ensures !AllSpaces(city) && !IsJsSpace(city[0]) && !IsJsSpace(city[|city| - 1]) ==> (r <==> |city| >= MinCity)
    ensures r <==> exists i, j :: TrimBounds(city, i, j) && j - i >= MinCity
  {
    TrimmedLengthAtLeast(city, MinCity)
  }

  /**
   * `|s.trim()| >= n` for a positive `n`: yup trims before it tests, so the
   * rule holds exactly when the part between the leading and trailing
   * whitespace has at least `n` characters.
   */
  function TrimmedLengthAtLeast(s: string, n: nat): (r: bool)
    requires n > 0
    ensures r ==> |s| >= n && NonSpaces(s) != []
    ensures !AllSpaces(s) && !IsJsSpace(s[0]) && !IsJsSpace(s[|s| - 1]) ==> (r <==> |s| >= n)
    ensures r <==> exists i, j :: TrimBounds(s, i, j) && j - i >= n
  {
    TrimmedLengthFacts(s, n);
    TrimmedLengthBounds(s, n);
    |Trim(s)| >= n
  }

  /** A short name padded with spaces is refused, although the padded text is long enough. */
  lemma PaddedShortNameRefused()
    ensures |" a "| >= MinName && !NameValid(" a ")
  {
    var s := " a ";
    assert TrimBounds(s, 1, 2);
    TrimOfBounds(s, 1, 2);
  }

  lemma TrimmedLengthFacts(s: string, n: nat)
    requires n > 0
    ensures |Trim(s)| >= n ==> |s| >= n && NonSpaces(s) != []
    ensures !AllSpaces(s) && !IsJsSpace(s[0]) && !IsJsSpace(s[|s| - 1]) ==> Trim(s) == s
  {
    var t := Trim(s);
    TrimKeepsNonSpaces(s);
    if !AllSpaces(s) && !IsJsSpace(s[0]) && !IsJsSpace(s[|s| - 1]) {
      TrimOfTrimmed(s);
    }
    if |t| >= n {
      NonEmptyTrimmedHasNonSpace(t);
    }
  }

  /** A non-empty string starting with a non-space keeps that character among its non-spaces. */
  lemma NonEmptyTrimmedHasNonSpace(t: string)
    requires t != [] && !IsJsSpace(t[0])
    ensures NonSpaces(t) != []
  {
    assert NonSpaces(t) == [t[0]] + NonSpaces(t[1..]);
  }

  /** `!!n` for a number: present and not zero. */
  predicate Truthy(n: Option<int>) {
    n.Some? && n.value != 0
  }

  /** The values of the new-listing form that the rules look at. */
  datatype TyreInput = TyreInput(
    brand: string,
    year: Option<int>,
    treadDepth: Option<int>,
    treadPercent: Option<int>,
    width: Option<int>,
    height: Option<int>,
    radius: Option<int>,
    quantity: Option<int>,
    season: string,
    vehicle: string,
    condition: string,
    city: string,
    price: Option<int>,
    contact: Option<int>,
    description: string)

  /** The rules of the new-listing form. */
  datatype TyreRule =
    | BrandRequired | YearRequired | YearTooEarly | YearInFuture
    | TreadDepthRange | TreadPercentRange
    | WidthRequired | HeightRequired | RadiusRequired
    | QuantityRequired | QuantityNotPositive
    | SeasonRequired | VehicleRequired | ConditionRequired | CityRequired
    | PriceRequired | PriceNotPositive | ContactRequired | DescriptionRequired
    | TreadMissing

  /** A number rule that only applies when the value is given. */
  predicate OutsideWhenGiven(n: Option<int>, lo: int, hi: int) {
    n.Some? && !(lo <= n.value <= hi)
  }

  /** Whether the form values break `rule`, for the given current calendar year. */
  predicate Breaks(t: TyreInput, currentYear: int, rule: TyreRule) {
    match rule
    case BrandRequired => t.brand == ""
    case YearRequired => t.year.None?
    case YearTooEarly => t.year.Some? && t.year.value < MinYear
    case YearInFuture => t.year.Some? && t.year.value > currentYear
    case TreadDepthRange => OutsideWhenGiven(t.treadDepth, 0, MaxTreadDepth)
    case TreadPercentRange => OutsideWhenGiven(t.treadPercent, 0, MaxTreadPercent)
    case WidthRequired => t.width.None?
    case HeightRequired => t.height.None?
    case RadiusRequired => t.radius.None?
    case QuantityRequired => t.quantity.None?
    case QuantityNotPositive => t.quantity.Some? && t.quantity.value <= 0
    case SeasonRequired => t.season == ""
    case VehicleRequired => t.vehicle == ""
    case ConditionRequired => t.condition == ""
    case CityRequired => t.city == ""
    case PriceRequired => t.price.None?
    case PriceNotPositive => t.price.Some? && t.price.value <= 0
    case ContactRequired => t.contact.None?
    case DescriptionRequired => t.description == ""
    case TreadMissing => !Truthy(t.treadDepth) && !Truthy(t.treadPercent)
  }

  /** The rules the form values break. */
  function TyreFailures(t: TyreInput, currentYear: int): (r: set<TyreRule>)
    ensures forall rule :: rule in r <==> Breaks(t, currentYear, rule)
  {
    set rule: TyreRule | Breaks(t, currentYear, rule)
  }

  /**
   * What an accepted form guarantees: a year between 1900 and the current
   * year, a positive quantity and price, and a non-zero tread depth or tread
   * percentage within its range.
   */
  lemma AcceptedTyreInput(t: TyreInput, currentYear: int)
    requires TyreFailures(t, currentYear) == {}
    ensures t.year.Some? && MinYear <= t.year.value <= currentYear
    ensures t.quantity.Some? && t.quantity.value > 0 && t.price.Some? && t.price.value > 0
    ensures (t.treadDepth.Some? && 0 < t.treadDepth.value <= MaxTreadDepth)
      || (t.treadPercent.Some? && 0 < t.treadPercent.value <= MaxTreadPercent)
  {
    var r := TyreFailures(t, currentYear);
    assert YearRequired !in r && YearTooEarly !in r && YearInFuture !in r;
    assert QuantityRequired !in r && QuantityNotPositive !in r;
    assert PriceRequired !in r && PriceNotPositive !in r;
    assert TreadMissing !in r && TreadDepthRange !in r && TreadPercentRange !in r;
  }

  /**
   * A tread depth of 0 is within its range but falsy: with no tread
   * percentage the form is refused for missing tread information.
   */
  lemma ZeroTreadDepthAloneRefused(t: TyreInput, currentYear: int)
    requires t.treadDepth == Some(0) && t.treadPercent.None?
    ensures TreadDepthRange !in TyreFailures(t, currentYear)
    ensures TreadMissing in TyreFailures(t, currentYear)
  {
  }

  /** The year rule depends on the clock: a year accepted now may be refused in an earlier year, never in a later one. */
  lemma YearRuleMonotone(t: TyreInput, y1: int, y2: int)
    requires y1 <= y2
    requires YearInFuture !in TyreFailures(t, y1)
    ensures YearInFuture !in TyreFailures(t, y2)
  {
  }
}
