/** The price normaliser of `seller.py` (`clean_price`): a scraped price text
    becomes a number, or the "unknown" price that Python writes `float('inf')`.

    Python's `float()` is replaced by an exact decimal parser over the grammar
    `[+|-] digits [. digits]` with at least one digit; the parsed value is the
    exact rational, not the nearest double. */
module Normalizer {
  import opened Wrappers

  /** A normalised price: a finite amount, or unknown (positive infinity). */
  datatype Price = Known(amount: real) | Unknown

  /** The rupee sign U+20B9. */
  const Rupee: char := '\U{20B9}'

  /** The sentinel text both scrapers write for a missing field. */
  const NotAvailable: string := "N/A"

  predicate IsAsciiLetter(c: char) {
    'A' <= c <= 'Z' || 'a' <= c <= 'z'
  }

  /** The characters of the class `[₹,A-Za-z]`, deleted before parsing. */
  predicate IsMark(c: char) {
    c == Rupee || c == ',' || IsAsciiLetter(c)
  }

  predicate IsDigit(c: char) {
    '0' <= c <= '9'
  }

  /** Python's `str.isspace()`: the code points `str.strip()` removes. */
  predicate IsSpace(c: char) {
    || '\t' <= c <= '\r'
    || '\U{1C}' <= c <= '\U{1F}'
    || c == ' '
    || c == '\U{85}'
    || c == '\U{A0}'
    || c == '\U{1680}'
    || '\U{2000}' <= c <= '\U{200A}'
    || c == '\U{2028}'
    || c == '\U{2029}'
    || c == '\U{202F}'
    || c == '\U{205F}'
    || c == '\U{3000}'
  }

  predicate AllDigits(s: string) {
    forall i :: 0 <= i < |s| ==> IsDigit(s[i])
  }

  /** `re.sub(r'[₹,A-Za-z]', '', s)`: every mark is deleted, everything else
      is kept in order. */
  function DeleteMarks(s: string): (r: string)
    ensures |r| <= |s|
    ensures forall i :: 0 <= i < |r| ==> !IsMark(r[i])
  {
    if |s| == 0 then []
    else if IsMark(s[0]) then DeleteMarks(s[1..])
    else [s[0]] + DeleteMarks(s[1..])
  }

  /** A text without marks is left as it is. */
  lemma {:induction false} NoMarksUnchanged(s: string)
    requires forall i :: 0 <= i < |s| ==> !IsMark(s[i])
    ensures DeleteMarks(s) == s
  {
    if |s| > 0 {
      NoMarksUnchanged(s[1..]);
      assert s == [s[0]] + s[1..];
    }
  }

  /** `s.lstrip()`: the longest suffix of `s` that does not start with a space. */
  function StripLeading(s: string): (r: string)
    ensures |r| <= |s| && r == s[|s| - |r|..]
    ensures forall i :: 0 <= i < |s| - |r| ==> IsSpace(s[i])
    ensures |r| > 0 ==> !IsSpace(r[0])
  {
    if |s| > 0 && IsSpace(s[0]) then StripLeading(s[1..]) else s
  }

  /** `s.rstrip()`: the longest prefix of `s` that does not end with a space. */
  function StripTrailing(s: string): (r: string)
    ensures |r| <= |s| && r == s[..|r|]
    ensures forall i :: |r| <= i < |s| ==> IsSpace(s[i])
    ensures |r| > 0 ==> !IsSpace(r[|r| - 1])
  {
    if |s| > 0 && IsSpace(s[|s| - 1]) then StripTrailing(s[..|s| - 1]) else s
  }

  /** `s` with its first `a` and last `|s| - a - |r|` characters, all white
      space, removed leaves `r`. */
  ghost predicate IsStrippedAt(s: string, a: int, r: string) {
    && 0 <= a <= |s| - |r|
    && r == s[a..a + |r|]
    && (forall i :: 0 <= i < a ==> IsSpace(s[i]))
    && (forall i :: a + |r| <= i < |s| ==> IsSpace(s[i]))
  }

  /** `s.strip()`: the slice of `s` left after removing leading and trailing
      white space; it neither starts nor ends with a space. */
  function Strip(s: string): (r: string)
    ensures exists a :: IsStrippedAt(s, a, r)
    ensures |r| > 0 ==> !IsSpace(r[0]) && !IsSpace(r[|r| - 1])
  {
    StripBothEnds(s);
    StripTrailing(StripLeading(s))
  }

  lemma {:induction false} StripBothEnds(s: string)
    ensures IsStrippedAt(s, |s| - |StripLeading(s)|, StripTrailing(StripLeading(s)))
    ensures var r := StripTrailing(StripLeading(s));
            |r| > 0 ==> !IsSpace(r[0]) && !IsSpace(r[|r| - 1])
  {
    TrimmedSlice(s, StripLeading(s), StripTrailing(StripLeading(s)));
  }

  /** A prefix `r` of a suffix `left` of `s`, with only white space cut
      off at either end and none left at the ends of `r`, is `s` stripped. */
  lemma {:induction false} TrimmedSlice(s: string, left: string, r: string)
    requires |left| <= |s| && left == s[|s| - |left|..]
    requires forall i :: 0 <= i < |s| - |left| ==> IsSpace(s[i])
    requires |left| > 0 ==> !IsSpace(left[0])
    requires |r| <= |left| && r == left[..|r|]
    requires forall i :: |r| <= i < |left| ==> IsSpace(left[i])
    requires |r| > 0 ==> !IsSpace(r[|r| - 1])
    ensures IsStrippedAt(s, |s| - |left|, r)
    ensures |r| > 0 ==> !IsSpace(r[0]) && !IsSpace(r[|r| - 1])
  {
    var a := |s| - |left|;
    forall i | a + |r| <= i < |s|
      ensures IsSpace(s[i])
    {
      assert s[i] == left[i - a];
    }
    assert |r| > 0 ==> r[0] == left[0];
  }

  /** Position of the first `c` in `s`, or `|s|` when there is none. */
  function FirstIndexOf(s: string, c: char): (k: nat)
    ensures k <= |s|
    ensures k < |s| ==> s[k] == c
    ensures forall i :: 0 <= i < k ==> s[i] != c
  {
    if |s| == 0 then 0
    else if s[0] == c then 0
    else 1 + FirstIndexOf(s[1..], c)
  }

  function DigitValue(c: char): nat
    requires IsDigit(c)
  {
    c as int - '0' as int
  }

  /** The natural number written by a string of decimal digits (0 for ""). */
  function DigitsValue(ds: string): nat
    requires AllDigits(ds)
  {
    if |ds| == 0 then 0
    else 10 * DigitsValue(ds[..|ds| - 1]) + DigitValue(ds[|ds| - 1])
  }

  function Pow10(k: nat): (p: nat)
    ensures p >= 1
  {
    if k == 0 then 1 else 10 * Pow10(k - 1)
  }

  /** An unsigned decimal: digits, optionally one `.` and more digits, with at
      least one digit in all. */
  function ParseUnsigned(s: string): (r: Option<real>)
    ensures r.Some? ==> r.value >= 0.0
    ensures r.Some? ==> exists i :: 0 <= i < |s| && IsDigit(s[i])
    ensures r.Some? ==> forall i :: 0 <= i < |s| ==> IsDigit(s[i]) || s[i] == '.'
    ensures |s| > 0 && AllDigits(s) ==> r == Some(DigitsValue(s) as real)
  {
    var k := FirstIndexOf(s, '.');
    assert AllDigits(s) ==> k == |s|;
    var whole := s[..k];
    var frac := if k < |s| then s[k + 1..] else [];
    if AllDigits(whole) && AllDigits(frac) && |whole| + |frac| > 0 then
      assert AllDigits(s) ==> whole == s && frac == [] && DigitsValue(frac) == 0 && Pow10(0) == 1;
      assert |whole| > 0 ==> IsDigit(s[0]);
      assert |frac| > 0 ==> IsDigit(s[k + 1]);
      Some(DigitsValue(whole) as real + DigitsValue(frac) as real / Pow10(|frac|) as real)
    else
      None
  }

  /** The restricted `float()` grammar: an optional sign, then an unsigned
      decimal. */
  function ParseDecimal(s: string): (r: Option<real>)
    ensures r.Some? ==> exists i :: 0 <= i < |s| && IsDigit(s[i])
    ensures r.Some? ==> forall i :: 0 <= i < |s| ==>
                          IsDigit(s[i]) || s[i] == '.' || s[i] == '+' || s[i] == '-'
    ensures |s| > 0 && AllDigits(s) ==> r == Some(DigitsValue(s) as real)
  {
    if |s| > 0 && (s[0] == '+' || s[0] == '-') then
      match ParseUnsigned(s[1..])
      case None => None
      case Some(v) => Some(if s[0] == '-' then -v else v)
    else
      ParseUnsigned(s)
  }

  /** The unsigned decimal grammar on its own terms: a non-empty digit
      string, or digit strings on both sides of a single `.` with at least
      one digit in all. */
  ghost predicate IsUnsignedDecimal(s: string) {
    || (|s| > 0 && AllDigits(s))
    || exists k :: 0 <= k < |s| && s[k] == '.' && AllDigits(s[..k]) && AllDigits(s[k + 1..]) && |s| > 1
  }

  /** An unsigned decimal, optionally after one `+` or `-`. */
  ghost predicate IsDecimal(s: string) {
    || IsUnsignedDecimal(s)
    || (|s| > 0 && (s[0] == '+' || s[0] == '-') && IsUnsignedDecimal(s[1..]))
  }

  /** The unsigned parser accepts exactly the unsigned decimal grammar. */
  lemma {:induction false} ParseUnsignedAccepts(s: string)
    ensures ParseUnsigned(s).Some? <==> IsUnsignedDecimal(s)
  {
    if IsUnsignedDecimal(s) {
      UnsignedDecimalParses(s);
    }
    if ParseUnsigned(s).Some? {
      ParsedIsUnsignedDecimal(s);
    }
  }

  lemma {:induction false} UnsignedDecimalParses(s: string)
    requires IsUnsignedDecimal(s)
    ensures ParseUnsigned(s).Some?
  {
    if !AllDigits(s) {
      var j :| 0 <= j < |s| && s[j] == '.' && AllDigits(s[..j]) && AllDigits(s[j + 1..]) && |s| > 1;
      PointIsFirst(s, j);
    }
  }

  lemma {:induction false} ParsedIsUnsignedDecimal(s: string)
    requires ParseUnsigned(s).Some?
    ensures IsUnsignedDecimal(s)
  {
    var k := FirstIndexOf(s, '.');
    if k < |s| {
      assert 0 <= k < |s| && s[k] == '.' && AllDigits(s[..k]) && AllDigits(s[k + 1..]) && |s| > 1;
    } else {
      assert s[..k] == s;
    }
  }

  /** A `.` preceded by digits only is the first `.`. */
  lemma {:induction false} PointIsFirst(s: string, j: int)
    requires 0 <= j < |s| && s[j] == '.' && AllDigits(s[..j])
    ensures FirstIndexOf(s, '.') == j
  {
    forall i | 0 <= i < j
      ensures s[i] != '.'
    {
      assert s[..j][i] == s[i];
    }
  }

  /** A text that starts with neither a digit nor `.` is no unsigned
      decimal. */
  lemma {:induction false} SignNotUnsigned(s: string)
    requires |s| > 0 && !IsDigit(s[0]) && s[0] != '.'
    ensures !IsUnsignedDecimal(s)
  {
    forall k | 0 < k < |s|
      ensures !AllDigits(s[..k])
    {
      assert s[..k][0] == s[0];
    }
  }

  /** The signed parser accepts exactly the decimal grammar. */
  lemma {:induction false} ParseDecimalAccepts(s: string)
    ensures ParseDecimal(s).Some? <==> IsDecimal(s)
  {
    if |s| > 0 && (s[0] == '+' || s[0] == '-') {
      ParseUnsignedAccepts(s[1..]);
      SignNotUnsigned(s);
    } else {
      ParseUnsignedAccepts(s);
    }
  }

  /** The exact value of `ds.fs`: the whole part plus the fraction digits
      over the matching power of ten. `ds.` is the case of empty `fs`. */
  function DecimalValue(ds: string, fs: string): real
    requires AllDigits(ds) && AllDigits(fs)
  {
    DigitsValue(ds) as real + DigitsValue(fs) as real / Pow10(|fs|) as real
  }

  /** A text with a decimal point parses to its exact value. */
  lemma {:induction false} UnsignedPointValue(ds: string, fs: string)
    requires AllDigits(ds) && AllDigits(fs) && |ds| + |fs| > 0
    ensures ParseUnsigned(ds + "." + fs) == Some(DecimalValue(ds, fs))
  {
    var s := ds + "." + fs;
    assert s[|ds|] == '.';
    assert s[..|ds|] == ds;
    PointIsFirst(s, |ds|);
    assert s[|ds| + 1..] == fs;
  }

  /** A leading `-` negates the value and a leading `+` keeps it; the sign
      does not change what is accepted. */
  lemma {:induction false} SignedValue(u: string)
    ensures ParseDecimal("-" + u).Some? <==> ParseUnsigned(u).Some?
    ensures ParseUnsigned(u).Some? ==> ParseDecimal("-" + u) == Some(-ParseUnsigned(u).value)
    ensures ParseDecimal("+" + u) == ParseUnsigned(u)
  {
    assert ("-" + u)[1..] == u;
    assert ("+" + u)[1..] == u;
  }

  /** A text that normalises to a number holds at least one digit. */
  lemma {:induction false} DigitSurvives(s: string)
    requires ParseDecimal(Strip(DeleteMarks(s))).Some?
    ensures exists i :: 0 <= i < |s| && IsDigit(s[i])
  {
    var d := DeleteMarks(s);
    var t := Strip(d);
    var i :| 0 <= i < |t| && IsDigit(t[i]);
    StrippedCharsComeFromInput(d, i);
    var k :| 0 <= k < |d| && d[k] == t[i];
    KeptCharsComeFromInput(s, k);
  }

  lemma {:induction false} StrippedCharsComeFromInput(s: string, i: int)
    requires 0 <= i < |Strip(s)|
    ensures exists k :: 0 <= k < |s| && s[k] == Strip(s)[i]
  {
    var t := Strip(s);
    var a :| IsStrippedAt(s, a, t);
    assert t[i] == s[a + i];
  }

  lemma {:induction false} KeptCharsComeFromInput(s: string, i: int)
    requires 0 <= i < |DeleteMarks(s)|
    ensures exists j :: 0 <= j < |s| && s[j] == DeleteMarks(s)[i]
  {
    if IsMark(s[0]) {
      KeptCharsComeFromInput(s[1..], i);
      var j :| 0 <= j < |s[1..]| && s[1..][j] == DeleteMarks(s[1..])[i];
      assert s[j + 1] == DeleteMarks(s)[i];
    } else if i > 0 {
      KeptCharsComeFromInput(s[1..], i - 1);
      var j :| 0 <= j < |s[1..]| && s[1..][j] == DeleteMarks(s[1..])[i - 1];
      assert s[j + 1] == DeleteMarks(s)[i];
    } else {
      assert s[0] == DeleteMarks(s)[0];
    }
  }

  /** The text path of `clean_price`: delete marks, strip, parse. */
  function NormaliseText(s: string): (p: Price)
    ensures p.Known? ==> exists i :: 0 <= i < |s| && IsDigit(s[i])
  {
    var v := ParseDecimal(Strip(DeleteMarks(s)));
    if v.Some? then
      DigitSurvives(s);
      Known(v.value)
    else
      Unknown
  }

  /** `clean_price`. `None` stands for any value that is not a string. */
  function CleanPrice(v: Option<string>): (p: Price)
    ensures v.None? || v == Some(NotAvailable) ==> p == Unknown
    ensures p.Known? ==> v.Some? && exists i :: 0 <= i < |v.value| && IsDigit(v.value[i])
  {
    match v
    case None => Unknown
    case Some(s) => if s == NotAvailable then Unknown else NormaliseText(s)
  }

  /** Deleting marks works character by character, so it distributes over
      concatenation. */
  lemma {:induction false} DeleteMarksAppend(s: string, t: string)
    ensures DeleteMarks(s + t) == DeleteMarks(s) + DeleteMarks(t)
  {
    if |s| == 0 {
      assert s + t == t;
    } else {
      assert (s + t)[1..] == s[1..] + t;
      DeleteMarksAppend(s[1..], t);
    }
  }

  /** The `"N/A"` guard never changes the outcome: the sentinel holds no
      digit, so it would normalise to unknown anyway. */
  lemma {:induction false} SentinelIsRedundant(s: string)
    ensures CleanPrice(Some(s)) == NormaliseText(s)
  {
    if s == NotAvailable {
      SentinelHasNoDigit();
      NoDigitIsUnknown(NotAvailable);
    }
  }

  lemma {:induction false} SentinelHasNoDigit()
    ensures forall i :: 0 <= i < |NotAvailable| ==> !IsDigit(NotAvailable[i])
  {
  }

  /** A text without a digit normalises to an unknown price. */
  lemma {:induction false} NoDigitIsUnknown(s: string)
    requires forall i :: 0 <= i < |s| ==> !IsDigit(s[i])
    ensures NormaliseText(s) == Unknown
  {
  }

  /** Two texts that differ only in their marks normalise alike. */
  lemma {:induction false} MarksAreIgnored(s: string, t: string)
    requires DeleteMarks(s) == DeleteMarks(t)
    ensures CleanPrice(Some(s)) == CleanPrice(Some(t))
  {
    SentinelIsRedundant(s);
    SentinelIsRedundant(t);
  }

  /** Inserting any run of `₹`, `,` and ASCII letters anywhere in a price text
      never changes its normalised price. */
  lemma {:induction false} InsertMarksIgnored(s: string, i: int, marks: string)
    requires 0 <= i <= |s|
    requires forall k :: 0 <= k < |marks| ==> IsMark(marks[k])
    ensures CleanPrice(Some(s[..i] + marks + s[i..])) == CleanPrice(Some(s))
  {
    DeleteInsertedMarks(s, i, marks);
    MarksAreIgnored(s[..i] + marks + s[i..], s);
  }

  /** Marks inserted anywhere are deleted again. */
  lemma {:induction false} DeleteInsertedMarks(s: string, i: int, marks: string)
    requires 0 <= i <= |s|
    requires forall k :: 0 <= k < |marks| ==> IsMark(marks[k])
    ensures DeleteMarks(s[..i] + marks + s[i..]) == DeleteMarks(s)
  {
    DeleteMarksAround(s[..i], marks, s[i..]);
    assert s[..i] + s[i..] == s;
  }

  lemma {:induction false} DeleteMarksAround(p: string, marks: string, q: string)
    requires forall k :: 0 <= k < |marks| ==> IsMark(marks[k])
    ensures DeleteMarks(p + marks + q) == DeleteMarks(p + q)
  {
    DeleteMarksAppend(p + marks, q);
    DeleteTrailingMarks(p, marks);
    DeleteMarksAppend(p, q);
  }

  lemma {:induction false} DeleteTrailingMarks(p: string, marks: string)
    requires forall k :: 0 <= k < |marks| ==> IsMark(marks[k])
    ensures DeleteMarks(p + marks) == DeleteMarks(p)
  {
    DeleteMarksAppend(p, marks);
    DeleteAllMarks(marks);
    assert DeleteMarks(p) + [] == DeleteMarks(p);
  }

  lemma {:induction false} DeleteAllMarks(marks: string)
    requires forall k :: 0 <= k < |marks| ==> IsMark(marks[k])
    ensures DeleteMarks(marks) == []
  {
    if |marks| > 0 {
      DeleteAllMarks(marks[1..]);
    }
  }

  /** The decimal numeral of `n`, without leading zeros. */
  function Numeral(n: nat): (ds: string)
    ensures |ds| > 0 && AllDigits(ds)
  {
    if n < 10 then ['0' + n as char]
    else Numeral(n / 10) + ['0' + (n % 10) as char]
  }

  /** Reading a numeral back gives the number it was printed from. */
  lemma {:induction false} NumeralRoundTrip(n: nat)
    ensures DigitsValue(Numeral(n)) == n
  {
    if n >= 10 {
      var ds := Numeral(n);
      assert ds[..|ds| - 1] == Numeral(n / 10);
      NumeralRoundTrip(n / 10);
    }
  }

  /** Text that neither starts nor ends with white space is left as it is
      by `strip()`. */
  lemma {:induction false} StripKeepsTrimmed(s: string)
    requires |s| > 0 && !IsSpace(s[0]) && !IsSpace(s[|s| - 1])
    ensures Strip(s) == s
  {
    assert StripLeading(s) == s;
  }

  /** A decimal text `ds.fs` cleans to its exact value. */
  lemma {:induction false} DecimalIsKnown(ds: string, fs: string)
    requires AllDigits(ds) && AllDigits(fs) && |ds| + |fs| > 0
    ensures CleanPrice(Some(ds + "." + fs)) == Known(DecimalValue(ds, fs))
  {
    var s := ds + "." + fs;
    DecimalTextIsPlain(ds, fs);
    StripKeepsTrimmed(s);
    UnsignedPointValue(ds, fs);
    assert ParseDecimal(s) == ParseUnsigned(s);
    SentinelIsRedundant(s);
  }

  /** `ds.fs` holds no mark and neither starts nor ends with white space. */
  lemma {:induction false} DecimalTextIsPlain(ds: string, fs: string)
    requires AllDigits(ds) && AllDigits(fs)
    ensures var s := ds + "." + fs;
            DeleteMarks(s) == s && !IsSpace(s[0]) && !IsSpace(s[|s| - 1])
  {
    var s := ds + "." + fs;
    forall i | 0 <= i < |s|
      ensures IsDigit(s[i]) || s[i] == '.'
    {
      if i < |ds| {
        assert s[i] == ds[i];
      } else if i > |ds| {
        assert s[i] == fs[i - |ds| - 1];
      }
    }
    NoMarksUnchanged(s);
  }

  /** A plain digit string normalises to the number it writes. */
  lemma {:induction false} DigitsAreKnown(ds: string)
    requires |ds| > 0 && AllDigits(ds)
    ensures CleanPrice(Some(ds)) == Known(DigitsValue(ds) as real)
  {
    assert forall i :: 0 <= i < |ds| ==> !IsMark(ds[i]);
    NoMarksUnchanged(ds);
    StripKeepsTrimmed(ds);
    SentinelIsRedundant(ds);
  }

  /** A rupee amount as the scrapers write it, `"₹"` and a numeral,
      normalises to that amount. */
  lemma {:induction false} RupeeNumeralIsKnown(n: nat)
    ensures CleanPrice(Some([Rupee] + Numeral(n))) == Known(n as real)
  {
    var ds := Numeral(n);
    assert ds[..0] == [] && ds[0..] == ds;
    assert ds[..0] + [Rupee] + ds[0..] == [Rupee] + ds;
    NumeralRoundTrip(n);
    DigitsAreKnown(ds);
    InsertMarksIgnored(ds, 0, [Rupee]);
  }

  /** A rupee amount with one thousands separator inserted normalises to
      the amount. */
  lemma {:induction false} GroupedRupeeAmount(n: nat, i: int)
    requires 0 <= i <= 1 + |Numeral(n)|
    ensures var s := [Rupee] + Numeral(n);
            CleanPrice(Some(s[..i] + [','] + s[i..])) == Known(n as real)
  {
    RupeeNumeralIsKnown(n);
    InsertMarksIgnored([Rupee] + Numeral(n), i, [',']);
  }

  /** The cases the repository's own tests check. */
  lemma {:induction false} CleanPriceExamples()
    ensures CleanPrice(Some("₹12,999")) == Known(12999.0)
    ensures CleanPrice(Some("₹1,200")) == Known(1200.0)
    ensures CleanPrice(Some(" ₹ 450 ")) == Known(450.0)
    ensures CleanPrice(Some("N/A")) == Unknown
    ensures CleanPrice(None) == Unknown
    ensures CleanPrice(Some("not-a-price")) == Unknown
  {
    GroupedExamples();
    SpacedAmount();
    NotAPrice();
  }

  lemma {:induction false} GroupedTexts()
    ensures Numeral(12999) == "12999"
    ensures ([Rupee] + "12999")[..3] + [','] + ([Rupee] + "12999")[3..] == "₹12,999"
    ensures Numeral(1200) == "1200"
    ensures ([Rupee] + "1200")[..2] + [','] + ([Rupee] + "1200")[2..] == "₹1,200"
  {
  }

  lemma {:induction false} GroupedExamples()
    ensures CleanPrice(Some("₹12,999")) == Known(12999.0)
    ensures CleanPrice(Some("₹1,200")) == Known(1200.0)
  {
    GroupedTexts();
    GroupedRupeeAmount(12999, 3);
    GroupedRupeeAmount(1200, 2);
  }

  lemma {:induction false} StripLeadingSkipsSpaces(pre: string, x: string)
    requires forall i :: 0 <= i < |pre| ==> IsSpace(pre[i])
    ensures StripLeading(pre + x) == StripLeading(x)
  {
    if |pre| > 0 {
      assert (pre + x)[1..] == pre[1..] + x;
      StripLeadingSkipsSpaces(pre[1..], x);
    } else {
      assert pre + x == x;
    }
  }

  lemma {:induction false} StripTrailingSkipsSpaces(x: string, post: string)
    requires forall i :: 0 <= i < |post| ==> IsSpace(post[i])
    ensures StripTrailing(x + post) == StripTrailing(x)
  {
    if |post| > 0 {
      assert (x + post)[..|x + post| - 1] == x + post[..|post| - 1];
      StripTrailingSkipsSpaces(x, post[..|post| - 1]);
    } else {
      assert x + post == x;
    }
  }

  lemma {:induction false} StripLeadingKeepsTail(x: string, post: string)
    requires |StripLeading(x)| > 0
    ensures StripLeading(x + post) == StripLeading(x) + post
  {
    if IsSpace(x[0]) {
      assert (x + post)[1..] == x[1..] + post;
      StripLeadingKeepsTail(x[1..], post);
    }
  }

  /** White space around a text does not change what `strip()` leaves. */
  lemma {:induction false} StripIgnoresSurroundingSpace(pre: string, x: string, post: string)
    requires forall i :: 0 <= i < |pre| ==> IsSpace(pre[i])
    requires forall i :: 0 <= i < |post| ==> IsSpace(post[i])
    ensures Strip(pre + x + post) == Strip(x)
  {
    assert pre + x + post == pre + (x + post);
    StripLeadingSkipsSpaces(pre, x + post);
    if |StripLeading(x)| > 0 {
      StripLeadingKeepsTail(x, post);
      StripTrailingSkipsSpaces(StripLeading(x), post);
    } else {
      StripLeadingSkipsSpaces(x, post);
      assert post + [] == post;
      StripLeadingSkipsSpaces(post, []);
    }
  }

  lemma {:induction false} DeleteMarksKeepsSpaces(s: string)
    requires forall i :: 0 <= i < |s| ==> IsSpace(s[i])
    ensures DeleteMarks(s) == s
  {
    assert forall i :: 0 <= i < |s| ==> !IsMark(s[i]);
    NoMarksUnchanged(s);
  }

  /** Leading and trailing white space never changes the normalised price. */
  lemma {:induction false} SurroundingSpaceIgnored(pre: string, s: string, post: string)
    requires forall i :: 0 <= i < |pre| ==> IsSpace(pre[i])
    requires forall i :: 0 <= i < |post| ==> IsSpace(post[i])
    ensures CleanPrice(Some(pre + s + post)) == CleanPrice(Some(s))
  {
    DeleteMarksAppend(pre + s, post);
    DeleteMarksAppend(pre, s);
    DeleteMarksKeepsSpaces(pre);
    DeleteMarksKeepsSpaces(post);
    StripIgnoresSurroundingSpace(pre, DeleteMarks(s), post);
    SentinelIsRedundant(pre + s + post);
    SentinelIsRedundant(s);
  }

  lemma {:induction false} RupeeAfterSpaceIgnored(a: string, rest: string)
    ensures CleanPrice(Some(a + [Rupee] + rest)) == CleanPrice(Some(a + rest))
  {
    var s := a + rest;
    assert s[..|a|] == a && s[|a|..] == rest;
    InsertMarksIgnored(s, |a|, [Rupee]);
  }

  lemma {:induction false} SpacedSignIgnored()
    ensures CleanPrice(Some(" ₹ 450 ")) == CleanPrice(Some("  450 "))
  {
    assert " " + [Rupee] + " 450 " == " ₹ 450 ";
    assert " " + " 450 " == "  450 ";
    RupeeAfterSpaceIgnored(" ", " 450 ");
  }

  lemma {:induction false} SpacedDigits()
    ensures CleanPrice(Some("  450 ")) == CleanPrice(Some("450"))
  {
    assert "  " + "450" + " " == "  450 ";
    assert IsSpace(' ');
    SurroundingSpaceIgnored("  ", "450", " ");
  }

  lemma {:induction false} PlainDigits()
    ensures CleanPrice(Some("450")) == Known(450.0)
  {
    assert Numeral(450) == "450";
    NumeralRoundTrip(450);
    DigitsAreKnown("450");
  }

  lemma {:induction false} SpacedAmount()
    ensures CleanPrice(Some(" ₹ 450 ")) == Known(450.0)
  {
    SpacedSignIgnored();
    SpacedDigits();
    PlainDigits();
  }

  /** Prices with a decimal point: `"₹99.50"` cleans to 99.5 and
      `"₹1,299."` to 1299. */
  lemma {:induction false} DecimalExamples()
    ensures CleanPrice(Some("₹99.50")) == Known(99.5)
    ensures CleanPrice(Some("₹1,299.")) == Known(1299.0)
  {
    RupeeHalfAmount();
    RupeeGroupedPoint();
  }

  lemma {:induction false} HalfAmount()
    ensures CleanPrice(Some("99.50")) == Known(99.5)
  {
    assert "99" + "." + "50" == "99.50";
    assert DigitsValue("99") == 99 && DigitsValue("50") == 50 && Pow10(2) == 100;
    DecimalIsKnown("99", "50");
  }

  lemma {:induction false} RupeeHalfAmount()
    ensures CleanPrice(Some("₹99.50")) == Known(99.5)
  {
    assert "" + [Rupee] + "99.50" == "₹99.50";
    assert "" + "99.50" == "99.50";
    RupeeAfterSpaceIgnored("", "99.50");
    HalfAmount();
  }

  lemma {:induction false} PointAmount()
    ensures CleanPrice(Some("1299.")) == Known(1299.0)
  {
    var ds: string := "1299";
    assert Numeral(1299) == ds;
    NumeralRoundTrip(1299);
    assert DecimalValue(ds, []) == 1299.0;
    assert ds + "." + [] == "1299.";
    DecimalIsKnown(ds, []);
  }

  lemma {:induction false} GroupedPoint()
    ensures CleanPrice(Some("1,299.")) == Known(1299.0)
  {
    var s := "1299.";
    assert s[..1] + [','] + s[1..] == "1,299.";
    InsertMarksIgnored(s, 1, [',']);
    PointAmount();
  }

  lemma {:induction false} RupeeGroupedPoint()
    ensures CleanPrice(Some("₹1,299.")) == Known(1299.0)
  {
    assert "" + [Rupee] + "1,299." == "₹1,299.";
    assert "" + "1,299." == "1,299.";
    RupeeAfterSpaceIgnored("", "1,299.");
    GroupedPoint();
  }

  /** A text without a single digit never normalises to a number. */
  lemma {:induction false} NotAPrice()
    ensures CleanPrice(Some("not-a-price")) == Unknown
  {
    var s := "not-a-price";
    assert forall i :: 0 <= i < |s| ==> !IsDigit(s[i]);
  }
}
