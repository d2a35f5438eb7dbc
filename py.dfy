/** The parts of Python's built-in behaviour that both handlers rely on:
    `str.strip()`, `str.startswith`, single-character `str.replace`,
    `int(str)` and `str(int)` in base 10, and the slice `s[:stop]`. */
module Py {

  datatype Option<+T> = None | Some(value: T)

  datatype Result<+T, +E> = Ok(value: T) | Err(error: E)

  /** The exceptions the handlers raise, catch or let escape. */
  datatype PyError =
    | ValueError
    | IndexError
    | JSONDecodeError
    | ConnectionResetError
    | BrokenPipeError
    | OtherError(name: string)

  newtype byte = x: int | 0 <= x < 256

  function Min(a: int, b: int): int { if a <= b then a else b }

  function Max(a: int, b: int): int { if a >= b then a else b }

  // ---------------------------------------------------------------------------
  // Whitespace and str.strip()

  /** The characters for which `str.isspace()` holds; `str.strip()` removes them. */
  predicate IsSpace(c: char) {
    ('\t' <= c <= '\r') || ('\U{1C}' <= c <= '\U{1F}') || c == ' ' ||
    c == '\U{85}' || c == '\U{A0}' || c == '\U{1680}' ||
    ('\U{2000}' <= c <= '\U{200A}') || c == '\U{2028}' || c == '\U{2029}' ||
    c == '\U{202F}' || c == '\U{205F}' || c == '\U{3000}'
  }

  /** Every character of `s` is whitespace (the empty string included). */
  predicate IsBlank(s: string) {
    forall i :: 0 <= i < |s| ==> IsSpace(s[i])
  }

  /** The ASCII information separators U+001C..U+001F. `str.isspace()` counts
      them as whitespace, but `int()` does not: below U+007F it skips only
      " \t\n\v\f\r", and any other character there is not part of a number. */
  predicate IsInfoSeparator(c: char) { '\U{1C}' <= c <= '\U{1F}' }

  /** The whitespace `int()` skips around a number. */
  predicate IsIntSpace(c: char) { IsSpace(c) && !IsInfoSeparator(c) }

  /** Where the text after leading whitespace starts, scanning from `i`: the
      first index at or after `i` whose character is not in `space`, or `|s|`. */
  function SkipBlanks(s: string, i: nat, space: char -> bool): (k: nat)
    requires i <= |s|
    ensures i <= k <= |s|
    ensures forall j :: i <= j < k ==> space(s[j])
    ensures k < |s| ==> !space(s[k])
    decreases |s| - i
  {
    if i < |s| && space(s[i]) then SkipBlanks(s, i + 1, space) else i
  }

  /** Where the text before trailing whitespace ends, scanning back from `e`:
      the smallest index `k` at or below `e` such that every character of
      `s[k..e]` is in `space`. */
  function BackBlanks(s: string, e: nat, space: char -> bool): (k: nat)
    requires e <= |s|
    ensures k <= e
    ensures forall j :: k <= j < e ==> space(s[j])
    ensures k > 0 ==> !space(s[k - 1])
  {
    if e > 0 && space(s[e - 1]) then BackBlanks(s, e - 1, space) else e
  }

  /** `s.strip()`. It is empty exactly when `s` is all whitespace, and
      otherwise neither starts nor ends with whitespace; `StripIsInfix` adds
      that it is a contiguous part of `s` with only whitespace around it. */
  function Strip(s: string): (r: string)
    ensures |r| <= |s|
    ensures r == [] <==> IsBlank(s)
    ensures r != [] ==> !IsSpace(r[0]) && !IsSpace(r[|r| - 1])
  {
    var k := SkipBlanks(s, 0, IsSpace);
    var e := BackBlanks(s, |s|, IsSpace);
    if e <= k then
      assert IsBlank(s) by {
        forall j | 0 <= j < |s| ensures IsSpace(s[j]) { }
      }
      []
    else
      assert !IsSpace(s[k]);
      s[k..e]
  }

  /** `s.strip()` is `s` with exactly its leading and trailing whitespace
      removed: a contiguous part of `s` with nothing but whitespace before and
      after it. With `Strip`'s guarantee that the result neither starts nor
      ends with whitespace, this fixes the result uniquely. */
  lemma StripIsInfix(s: string)
    ensures var r := Strip(s);
      exists k :: 0 <= k <= |s| - |r| && r == s[k..k + |r|] && IsBlank(s[..k]) && IsBlank(s[k + |r|..])
  {
    var r, k := Strip(s), SkipBlanks(s, 0, IsSpace);
    if r == [] {
      assert IsBlank(s[..0]) && s[0..0] == r && s[0..] == s;
    } else {
      var e := BackBlanks(s, |s|, IsSpace);
      assert r == s[k..e];
      assert IsBlank(s[..k]) by {
        forall j | 0 <= j < k ensures IsSpace(s[..k][j]) { }
      }
      assert IsBlank(s[e..]) by {
        forall j | 0 <= j < |s| - e ensures IsSpace(s[e..][j]) { assert s[e..][j] == s[e + j]; }
      }
    }
  }

  /** Stripping text that neither starts nor ends with whitespace changes nothing. */
  lemma StripUnchanged(s: string)
    requires s != [] ==> !IsSpace(s[0]) && !IsSpace(s[|s| - 1])
    ensures Strip(s) == s
  {
    assert s[0..|s|] == s;
  }

  // ---------------------------------------------------------------------------
  // str.startswith and str.replace

  /** `s.startswith(prefix)`. */
  predicate StartsWith(s: string, prefix: string) {
    |prefix| <= |s| && s[..|prefix|] == prefix
  }

  /** `s.endswith(suffix)`. */
  predicate EndsWith(s: string, suffix: string) {
    |suffix| <= |s| && s[|s| - |suffix|..] == suffix
  }

  /** `s.replace(from, to)` for one-character arguments: every occurrence of
      `from` becomes `to` and every other character stays where it was. */
  function Replace(s: string, from: char, to: char): (r: string)
    ensures |r| == |s|
    ensures forall i :: 0 <= i < |s| ==> r[i] == if s[i] == from then to else s[i]
  {
    if s == [] then [] else [if s[0] == from then to else s[0]] + Replace(s[1..], from, to)
  }

  // ---------------------------------------------------------------------------
  // int(str) and str(int) in base 10

  predicate IsDigit(c: char) { '0' <= c <= '9' }

  function DigitChar(d: nat): (c: char)
    requires d < 10
    ensures IsDigit(c) && c as int - '0' as int == d
  {
    ('0' as int + d) as char
  }

  /** A run of decimal digits in which single underscores may separate digits
      (the grammar `int()` accepts after the sign, PEP 515). */
  predicate IsDigitRun(t: string) {
    |t| > 0 && IsDigit(t[0]) && IsDigit(t[|t| - 1]) &&
    (forall i :: 0 <= i < |t| ==> IsDigit(t[i]) || t[i] == '_') &&
    (forall i :: 0 < i < |t| && t[i] == '_' ==> t[i - 1] != '_')
  }

  /** The value of a run of digits, underscores ignored. */
  function DigitsValue(t: string): nat
    requires forall i :: 0 <= i < |t| ==> IsDigit(t[i]) || t[i] == '_'
  {
    if t == [] then 0
    else
      var init := DigitsValue(t[..|t| - 1]);
      var last := t[|t| - 1];
      assert IsDigit(last) || last == '_';
      if last == '_' then init else 10 * init + (last as int - '0' as int)
  }

  /** The number of digits in a run, underscores not counted (leading zeros are). */
  function DigitCount(t: string): nat {
    if t == [] then 0 else DigitCount(t[..|t| - 1]) + (if t[|t| - 1] == '_' then 0 else 1)
  }

  /** The most digits `int()` converts from a `str` in base 10: the default of
      `sys.get_int_max_str_digits()` (CPython 3.11 on); longer runs raise `ValueError`. */
  const MaxStrDigits := 4300

  function Magnitude(n: int): nat { if n < 0 then -n else n }

  /** Appending a digit to a positive number appends it to its decimal form. */
  lemma NatStrAppend(v: nat, d: nat)
    requires v > 0 && d < 10
    ensures NatStr(10 * v + d) == NatStr(v) + [DigitChar(d)]
  {
    assert (10 * v + d) / 10 == v && (10 * v + d) % 10 == d;
  }

  /** A run of `d` digits has a value whose decimal form has at most `d` digits
      (one for a value of zero). */
  lemma {:induction false} DigitsValueLength(t: string)
    requires forall i :: 0 <= i < |t| ==> IsDigit(t[i]) || t[i] == '_'
    ensures DigitCount(t) == 0 ==> DigitsValue(t) == 0
    ensures |NatStr(DigitsValue(t))| <= Max(DigitCount(t), 1)
  {
    if t != [] {
      var init := t[..|t| - 1];
      DigitsValueLength(init);
      var v := DigitsValue(init);
      var last := t[|t| - 1];
      if last == '_' {
        assert DigitsValue(t) == v && DigitCount(t) == DigitCount(init);
      } else {
        var d := last as int - '0' as int;
        assert DigitsValue(t) == 10 * v + d && DigitCount(t) == DigitCount(init) + 1;
        if v > 0 {
          NatStrAppend(v, d);
        }
      }
    }
  }

  /** The digit run after the sign, as `int()` reads it: its value, or `None`
      when it is not a run or has more than `MaxStrDigits` digits. */
  function ParseRun(digits: string): (r: Option<nat>)
    ensures r.Some? ==> |NatStr(r.value)| <= MaxStrDigits
  {
    if IsDigitRun(digits) && DigitCount(digits) <= MaxStrDigits then
      DigitsValueLength(digits);
      Some(DigitsValue(digits))
    else None
  }

  /** `int(s)` for a `str` argument: `IsIntSpace` whitespace around, an optional
      sign and a digit run of at most `MaxStrDigits` digits. `None` stands for
      the `ValueError` that `int()` raises. Blank text never parses, and every
      value it returns can be written back in at most `MaxStrDigits` digits. */
  function ParseInt(s: string): (r: Option<int>)
    ensures IsBlank(s) ==> r == None
    ensures r.Some? ==> |NatStr(Magnitude(r.value))| <= MaxStrDigits
  {
    var k := SkipBlanks(s, 0, IsIntSpace);
    var e := BackBlanks(s, |s|, IsIntSpace);
    if e <= k then None
    else
      var t := s[k..e];
      if t[0] == '+' || t[0] == '-' then
        match ParseRun(t[1..])
        case None => None
        case Some(v) => Some(if t[0] == '-' then -(v as int) else v)
      else
        match ParseRun(t)
        case None => None
        case Some(v) => Some(v)
  }

  /** `str(n)` for a natural number: its shortest decimal digits. */
  function NatStr(n: nat): (r: string)
    ensures |r| > 0 && IsDigit(r[0]) && IsDigit(r[|r| - 1])
    ensures forall i :: 0 <= i < |r| ==> IsDigit(r[i])
  {
    if n < 10 then [DigitChar(n)] else NatStr(n / 10) + [DigitChar(n % 10)]
  }

  /** `str(n)` for an integer. */
  function Str(n: int): string {
    if n < 0 then "-" + NatStr(-n) else NatStr(n)
  }

  lemma {:induction false} DigitsValueOfNatStr(n: nat)
    ensures DigitsValue(NatStr(n)) == n
    ensures DigitCount(NatStr(n)) == |NatStr(n)|
  {
    if n >= 10 {
      var s := NatStr(n);
      assert s[..|s| - 1] == NatStr(n / 10);
      DigitsValueOfNatStr(n / 10);
    }
  }

  /** A crude bound on the length of `str(n)`. */
  lemma NatStrLengthBound(m: nat)
    ensures |NatStr(m)| <= m + 1
  {
  }

  lemma ParseRunOfNatStr(m: nat)
    requires |NatStr(m)| <= MaxStrDigits
    ensures ParseRun(NatStr(m)) == Some(m)
  {
    DigitsValueOfNatStr(m);
  }

  /** Text that neither starts nor ends with `int()` whitespace is read whole. */
  lemma NoIntSpaceAround(s: string)
    requires s != [] && !IsIntSpace(s[0]) && !IsIntSpace(s[|s| - 1])
    ensures SkipBlanks(s, 0, IsIntSpace) == 0 && BackBlanks(s, |s|, IsIntSpace) == |s|
    ensures s[0..|s|] == s
  {
  }

  /** `int(str(n)) == n` for every integer short enough for `int()` to accept:
      rendering it and parsing it back is the identity. */
  lemma ParseIntOfStr(n: int)
    requires |NatStr(Magnitude(n))| <= MaxStrDigits
    ensures ParseInt(Str(n)) == Some(n)
  {
    var s := Str(n);
    var m := Magnitude(n);
    ParseRunOfNatStr(m);
    NoIntSpaceAround(s);
    if n < 0 {
      assert s[0] == '-' && s[1..] == NatStr(m);
    } else {
      assert s == NatStr(m) && IsDigit(s[0]);
    }
  }

  lemma {:induction false} DigitCountOfDigits(t: string)
    requires forall i :: 0 <= i < |t| ==> IsDigit(t[i])
    ensures DigitCount(t) == |t|
  {
    if t != [] {
      DigitCountOfDigits(t[..|t| - 1]);
    }
  }

  /** A run of more than `MaxStrDigits` decimal digits is rejected by `int()`
      whatever its value. */
  lemma ParseIntRejectsLong(t: string)
    requires |t| > MaxStrDigits
    requires forall i :: 0 <= i < |t| ==> IsDigit(t[i])
    ensures ParseInt(t) == None
  {
    DigitCountOfDigits(t);
    NoIntSpaceAround(t);
    assert ParseRun(t) == None;
  }

  /** `int()` rejects text that holds an information separator anywhere, even
      where `str.strip()` would have removed it: `int("\x1f5")` raises
      `ValueError` although `"\x1f5".strip()` is `"5"`. */
  lemma ParseIntRejectsSeparator(s: string, i: nat)
    requires i < |s| && IsInfoSeparator(s[i])
    ensures ParseInt(s) == None
  {
    var k := SkipBlanks(s, 0, IsIntSpace);
    var e := BackBlanks(s, |s|, IsIntSpace);
    assert k <= i < e;
    var t := s[k..e];
    assert t[i - k] == s[i];
    if t[0] == '+' || t[0] == '-' {
      assert t[1..][i - k - 1] == s[i];
    }
  }

  // ---------------------------------------------------------------------------
  // The slice s[:stop]

  /** `s[:stop]` under Python's slice rules: a negative `stop` counts from the
      end, and a `stop` beyond either end is clamped to it. */
  function SliceTo<T>(s: seq<T>, stop: int): (r: seq<T>)
    ensures |r| <= |s| && r == s[..|r|]
    ensures stop >= 0 ==> |r| == Min(stop, |s|)
    ensures stop < 0 ==> |r| == Max(|s| + stop, 0)
  {
    var end := if stop >= 0 then Min(stop, |s|) else Max(|s| + stop, 0);
    s[..end]
  }

  /** A negative stop `-k` drops exactly the last `k` elements, or all of them
      when there are fewer; a stop of zero keeps nothing. */
  lemma SliceToNonPositive<T>(s: seq<T>, k: nat)
    requires k > 0
    ensures k <= |s| ==> SliceTo(s, -(k as int)) + s[|s| - k..] == s
    ensures k > |s| ==> SliceTo(s, -(k as int)) == []
    ensures SliceTo(s, 0) == []
  {
    if k <= |s| {
      assert SliceTo(s, -(k as int)) == s[..|s| - k];
    }
  }
}
