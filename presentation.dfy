/**
 * The two string helpers of the media model: the `dimensions` accessor
 * (`getDimensionsAttribute`) and the filename-to-alt-text transform (`altTextFrom`).
 */
module Presentation {
  import opened PhpValues

  // ---------------------------------------------------------------- dimensions

  predicate IsDigit(c: char)
  {
    '0' <= c <= '9'
  }

  predicate AllDigits(s: string)
  {
    forall i :: 0 <= i < |s| ==> IsDigit(s[i])
  }

  /** The decimal digits of a natural number, most significant first. */
  function NatToString(n: nat): (s: string)
    ensures s != [] && AllDigits(s)
    ensures |s| > 1 ==> s[0] != '0'
    ensures n < 10 <==> |s| == 1
    decreases n
  {
    if n < 10 then [(n + '0' as int) as char]
    else NatToString(n / 10) + [(n % 10 + '0' as int) as char]
  }

  /** The value of a string of decimal digits (the inverse of `NatToString`). */
  function DigitsValue(s: string): nat
    requires AllDigits(s)
    decreases |s|
  {
    if s == [] then 0
    else
      assert IsDigit(s[|s| - 1]);
      10 * DigitsValue(s[..|s| - 1]) + (s[|s| - 1] as int - '0' as int)
  }

  /** Reading back the digits of a number gives the number. */
  lemma {:induction false} DigitsValueOfNatToString(n: nat)
    ensures DigitsValue(NatToString(n)) == n
    decreases n
  {
    if n >= 10 {
      var s := NatToString(n);
      assert s[..|s| - 1] == NatToString(n / 10);
      DigitsValueOfNatToString(n / 10);
    }
  }

  /** PHP's string conversion of an integer: a minus sign exactly for negatives, then the digits of the magnitude. */
  function IntToString(i: int): (r: string)
    ensures r != [] && (r[0] == '-' <==> i < 0)
    ensures var digits := if i < 0 then r[1..] else r;
            digits != [] && AllDigits(digits) && (|digits| > 1 ==> digits[0] != '0') &&
            DigitsValue(digits) == if i < 0 then -i else i
  {
    if i < 0 then
      DigitsValueOfNatToString(-i);
      assert ("-" + NatToString(-i))[1..] == NatToString(-i);
      "-" + NatToString(-i)
    else
      DigitsValueOfNatToString(i);
      NatToString(i)
  }

  /** The scalar values a width or height column can hold. */
  predicate IsScalar(v: Value)
  {
    v.Null? || v.Bool? || v.Int? || v.Str?
  }

  /** PHP's string conversion (as done by `.`) of a scalar value. */
  function ToPhpString(v: Value): (r: string)
    requires IsScalar(v)
    ensures v.Null? ==> r == ""
    ensures v.Bool? ==> r == if v.b then "1" else ""
    ensures v.Int? ==> r == IntToString(v.i)
    ensures v.Str? ==> r == v.s
  {
    match v
    case Null => ""
    case Bool(b) => if b then "1" else ""
    case Int(i) => IntToString(i)
    case Str(s) => s
  }

  /** `getDimensionsAttribute()`: `$width . 'x' . $height`. */
  function Dimensions(width: Value, height: Value): (r: string)
    requires IsScalar(width) && IsScalar(height)
    ensures |r| == |ToPhpString(width)| + 1 + |ToPhpString(height)|
    ensures r[|ToPhpString(width)|] == 'x'
    ensures r[..|ToPhpString(width)|] == ToPhpString(width) && r[|ToPhpString(width)| + 1..] == ToPhpString(height)
  {
    ToPhpString(width) + "x" + ToPhpString(height)
  }

  /**
   * For natural width and height the dimensions string can be read back: the
   * first 'x' separates the digits of the width from those of the height.
   */
  lemma DimensionsReadBack(width: nat, height: nat)
    ensures var r := Dimensions(Int(width), Int(height));
            var k := |NatToString(width)|;
            k < |r| && r[k] == 'x' && (forall i :: 0 <= i < k ==> r[i] != 'x') &&
            AllDigits(r[..k]) && AllDigits(r[k + 1..]) &&
            DigitsValue(r[..k]) == width && DigitsValue(r[k + 1..]) == height
  {
    var r := Dimensions(Int(width), Int(height));
    var k := |NatToString(width)|;
    assert r[..k] == NatToString(width);
    assert r[k + 1..] == NatToString(height);
    DigitsValueOfNatToString(width);
    DigitsValueOfNatToString(height);
  }

  // ---------------------------------------------------------------- alt text

  /** `s` with its trailing slashes removed, as `basename` does first. */
  function StripTrailingSlashes(s: string): (r: string)
    ensures r <= s && (r == [] || r[|r| - 1] != '/')
    ensures forall i :: |r| <= i < |s| ==> s[i] == '/'
    decreases |s|
  {
    if s != [] && s[|s| - 1] == '/' then StripTrailingSlashes(s[..|s| - 1]) else s
  }

  /** The part of `s` after its last '/' (all of `s` when it has none). */
  function AfterLastSlash(s: string): (r: string)
    ensures |r| <= |s| && r == s[|s| - |r|..] && '/' !in r
    ensures |r| < |s| ==> s[|s| - |r| - 1] == '/'
    decreases |s|
  {
    if s == [] || s[|s| - 1] == '/' then []
    else AfterLastSlash(s[..|s| - 1]) + [s[|s| - 1]]
  }

  /** PHP `basename` on '/'-separated paths. */
  function Basename(path: string): (r: string)
    ensures var trimmed := StripTrailingSlashes(path);
            |r| <= |trimmed| && r == trimmed[|trimmed| - |r|..] && '/' !in r &&
            (|r| < |trimmed| ==> trimmed[|trimmed| - |r| - 1] == '/')
  {
    AfterLastSlash(StripTrailingSlashes(path))
  }

  /** The prefix of `s` before its last '.'. */
  function BeforeLastDot(s: string): (r: string)
    requires '.' in s
    ensures |r| < |s| && r == s[..|r|] && s[|r|] == '.' && '.' !in s[|r| + 1..]
    decreases |s|
  {
    if s[|s| - 1] == '.' then s[..|s| - 1]
    else
      assert '.' in s[..|s| - 1] by {
        var i :| 0 <= i < |s| && s[i] == '.';
        assert s[..|s| - 1][i] == '.';
      }
      var r := BeforeLastDot(s[..|s| - 1]);
      assert s[|r| + 1..] == s[..|s| - 1][|r| + 1..] + [s[|s| - 1]];
      r
  }

  /**
   * `pathinfo($path, PATHINFO_FILENAME)`: the basename without its last
   * extension; a basename with no '.' is kept whole.
   */
  function PathFilename(path: string): (r: string)
    ensures '/' !in r
    ensures '.' !in Basename(path) ==> r == Basename(path)
    ensures '.' in Basename(path) ==>
              |r| < |Basename(path)| && r == Basename(path)[..|r|] && Basename(path)[|r|] == '.' && '.' !in Basename(path)[|r| + 1..]
  {
    var base := Basename(path);
    if '.' in base then
      BeforeLastDot(base)
    else base
  }

  /** Laravel's `Str::endsWith` for one non-empty needle. */
  predicate EndsWith(s: string, suffix: string)
    ensures EndsWith(s, suffix) ==> |suffix| <= |s| && s == s[..|s| - |suffix|] + suffix
  {
    |suffix| <= |s| && s[|s| - |suffix|..] == suffix
  }

  /**
   * The retina step of `altTextFrom`: a name ending in "@2x" loses its last two
   * characters, so the '@' stays (and later becomes a space).
   */
  function TrimRetinaSuffix(name: string): (r: string)
    ensures EndsWith(name, "@2x") ==> r + "2x" == name && r[|r| - 1] == '@'
    ensures !EndsWith(name, "@2x") ==> r == name
  {
    if EndsWith(name, "@2x") then name[..|name| - 2] else name
  }

  predicate IsAsciiAlnum(c: char)
  {
    'a' <= c <= 'z' || 'A' <= c <= 'Z' || '0' <= c <= '9'
  }

  /** `preg_replace('/[^a-zA-Z0-9]/', ' ', $s)`. */
  function ReplaceNonAlnum(s: string): (r: string)
    ensures |r| == |s|
    ensures forall i :: 0 <= i < |s| ==> (IsAsciiAlnum(s[i]) ==> r[i] == s[i]) && (!IsAsciiAlnum(s[i]) ==> r[i] == ' ')
  {
    seq(|s|, i requires 0 <= i < |s| => if IsAsciiAlnum(s[i]) then s[i] else ' ')
  }

  /** The word delimiters of PHP `ucwords`: space, tab, CR, LF, form feed, vertical tab. */
  predicate IsWordDelimiter(c: char)
  {
    c == ' ' || c == '\t' || c == '\r' || c == '\n' || c == '\U{C}' || c == '\U{B}'
  }

  /** ASCII upper-casing of one character (`toupper` in the C locale). */
  function ToUpper(c: char): (r: char)
    ensures !('a' <= r <= 'z')
    ensures !('a' <= c <= 'z') ==> r == c
    ensures 'a' <= c <= 'z' ==> 'A' <= r <= 'Z' && r as int - 'A' as int == c as int - 'a' as int
  {
    if 'a' <= c <= 'z' then (c as int - 'a' as int + 'A' as int) as char else c
  }

  /** Whether position `i` of `s` starts a word. */
  predicate StartsWord(s: string, i: nat)
    requires i < |s|
  {
    i == 0 || IsWordDelimiter(s[i - 1])
  }

  /** PHP `ucwords`: the first character of every word upper-cased, nothing else changed. */
  function Ucwords(s: string): (r: string)
    ensures |r| == |s|
    ensures forall i :: 0 <= i < |s| ==> r[i] == if StartsWord(s, i) then ToUpper(s[i]) else s[i]
  {
    seq(|s|, i requires 0 <= i < |s| => if StartsWord(s, i) then ToUpper(s[i]) else s[i])
  }

  /** The shape of `ucwords` applied to the replaced text: see `AltTextFrom`. */
  predicate IsAltTextOf(r: string, source: string)
  {
    |r| == |source| &&
    forall i :: 0 <= i < |r| ==>
      (IsAsciiAlnum(r[i]) <==> IsAsciiAlnum(source[i])) &&
      (r[i] == ' ' <==> !IsAsciiAlnum(source[i])) &&
      (IsAsciiAlnum(source[i]) ==> r[i] == if StartsWord(r, i) then ToUpper(source[i]) else source[i])
  }

  lemma CapitalisedReplacement(source: string)
    ensures IsAltTextOf(Ucwords(ReplaceNonAlnum(source)), source)
  {
    var replaced := ReplaceNonAlnum(source);
    var r := Ucwords(replaced);
    forall i | 0 <= i < |r|
      ensures (IsAsciiAlnum(r[i]) <==> IsAsciiAlnum(source[i])) &&
              (r[i] == ' ' <==> !IsAsciiAlnum(source[i])) &&
              (IsAsciiAlnum(source[i]) ==> r[i] == if StartsWord(r, i) then ToUpper(source[i]) else source[i])
    {
      assert i > 0 ==> (IsWordDelimiter(r[i - 1]) <==> IsWordDelimiter(replaced[i - 1]));
      assert StartsWord(r, i) <==> StartsWord(replaced, i);
    }
  }

  /**
   * `altTextFrom($filename)`: the file name without directory, extension and
   * "2x" retina suffix, passed through `sanitizeFilename` (a parameter here),
   * every character other than an ASCII letter or digit turned into a space,
   * and every word capitalised.
   */
  function AltTextFrom(filename: string, sanitize: string -> string): (r: string)
    ensures IsAltTextOf(r, sanitize(TrimRetinaSuffix(PathFilename(filename))))
  {
    var source := sanitize(TrimRetinaSuffix(PathFilename(filename)));
    CapitalisedReplacement(source);
    Ucwords(ReplaceNonAlnum(source))
  }

  /** Text of that shape is already in final form: replacing and capitalising again changes nothing. */
  lemma AltTextIsStable(r: string, source: string)
    requires IsAltTextOf(r, source)
    ensures ReplaceNonAlnum(r) == r
    ensures Ucwords(r) == r
  {
    var replaced := ReplaceNonAlnum(r);
    forall i | 0 <= i < |r|
      ensures replaced[i] == r[i]
    {
      assert IsAsciiAlnum(r[i]) || r[i] == ' ';
    }
    var capitalised := Ucwords(r);
    forall i | 0 <= i < |r|
      ensures capitalised[i] == r[i]
    {
      assert StartsWord(r, i) ==> ToUpper(r[i]) == r[i];
    }
  }

  /** A name with no '/' and no '.' has no directory and no extension: it is its own `pathinfo` stem. */
  lemma PlainNameIsItsOwnStem(name: string)
    requires '/' !in name && '.' !in name
    ensures PathFilename(name) == name
  {
    assert StripTrailingSlashes(name) == name;
    var base := AfterLastSlash(name);
    assert |base| == |name|;
  }


  /**
   * With `sanitizeFilename` taken as the identity, "hero@2x" gives the alt text
   * "Hero ": only "2x" is trimmed, and the remaining '@' becomes a space.
   */
  lemma RetinaExample()
    ensures TrimRetinaSuffix("hero@2x") == "hero@"
    ensures AltTextFrom("hero@2x", s => s) == "Hero "
  {
    PlainNameIsItsOwnStem("hero@2x");
    RetinaTrim();
    RetinaWords();
  }

  /** The retina step on "hero@2x" removes only "2x". */
  lemma RetinaTrim()
    ensures TrimRetinaSuffix("hero@2x") == "hero@"
  {
    assert EndsWith("hero@2x", "@2x");
    assert "hero@2x"[..5] == "hero@";
  }

  /** The replacement and `ucwords` steps on the stem "hero@". */
  lemma RetinaWords()
    ensures Ucwords(ReplaceNonAlnum("hero@")) == "Hero "
  {
    var replaced := ReplaceNonAlnum("hero@");
    assert replaced == "hero ";
    var capitalised := Ucwords(replaced);
    assert capitalised[0] == ToUpper('h') == 'H';
    assert capitalised == "Hero ";
  }
}
