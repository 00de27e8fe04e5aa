/** The .NET text conventions the goal tracker relies on: the white-space
    tests behind string.IsNullOrWhiteSpace, string.Split on one character,
    and the invariant-culture formatting and parsing of int and bool.
    Ints are unbounded here; Int32 matters only where int.TryParse rejects
    values outside its range. */
module Text {

  datatype Option<T> = None | Some(value: T)

  /** The field separator of the save format. */
  const Delimiter: char := '|'

  const MinInt32: int := -0x8000_0000
  const MaxInt32: int := 0x7FFF_FFFF

  predicate InInt32(n: int) {
    MinInt32 <= n <= MaxInt32
  }

  // ---------------------------------------------------------------------
  // White space

  /** char.IsWhiteSpace: the Latin-1 white-space characters and the Unicode
      space, line and paragraph separators. */
  predicate IsWhiteSpace(c: char) {
    ('\t' <= c <= '\r') || c == ' ' || c == '\U{85}' || c == '\U{A0}' || c == '\U{1680}'
    || ('\U{2000}' <= c <= '\U{200A}') || c == '\U{2028}' || c == '\U{2029}'
    || c == '\U{202F}' || c == '\U{205F}' || c == '\U{3000}'
  }

  /** string.IsNullOrWhiteSpace on a line that exists (lines are never null). */
  predicate IsBlank(s: string) {
    forall i :: 0 <= i < |s| ==> IsWhiteSpace(s[i])
  }

  /** The white space int.TryParse skips before and after the number. */
  predicate IsNumberWhite(c: char) {
    ('\t' <= c <= '\r') || c == ' '
  }

  /** What bool.TryParse trims before comparing: white space and NUL. */
  predicate IsBoolTrim(c: char) {
    IsWhiteSpace(c) || c == '\0'
  }

  function TrimStart(s: string, trim: char -> bool): string {
    if s != [] && trim(s[0]) then TrimStart(s[1..], trim) else s
  }

  function TrimEnd(s: string, trim: char -> bool): string {
    if s != [] && trim(s[|s| - 1]) then TrimEnd(s[..|s| - 1], trim) else s
  }

  function Trim(s: string, trim: char -> bool): string {
    TrimEnd(TrimStart(s, trim), trim)
  }

  /** A string whose first and last characters are kept is its own trim. */
  lemma TrimKeeps(s: string, trim: char -> bool)
    requires s != [] && !trim(s[0]) && !trim(s[|s| - 1])
    ensures Trim(s, trim) == s
  {
  }

  // ---------------------------------------------------------------------
  // string.Split(Delimiter) and its inverse, string.Join

  predicate NoDelimiter(s: string) {
    Delimiter !in s
  }

  /** The fields of a line, as line.Split('|') returns them: never empty, one
      more field than there are delimiters. */
  function Split(s: string): (parts: seq<string>)
    ensures |parts| >= 1
  {
    if s == [] then [""]
    else
      var rest := Split(s[1..]);
      if s[0] == Delimiter then [""] + rest
      else [[s[0]] + rest[0]] + rest[1..]
  }

  /** The fields separated by the delimiter, as string interpolation of
      "a|b|c" builds a saved line. */
  function Join(fields: seq<string>): string
    requires |fields| >= 1
  {
    if |fields| == 1 then fields[0] else fields[0] + [Delimiter] + Join(fields[1..])
  }

  lemma {:induction false} SplitWithoutDelimiter(s: string)
    requires NoDelimiter(s)
    ensures Split(s) == [s]
  {
    if s != [] {
      assert Delimiter !in s[1..] by {
        forall i | 0 <= i < |s[1..]| ensures s[1..][i] != Delimiter {
          assert s[1..][i] == s[i + 1];
        }
      }
      SplitWithoutDelimiter(s[1..]);
      assert [s[0]] + s[1..] == s;
    }
  }

  lemma {:induction false} SplitAtDelimiter(field: string, rest: string)
    requires NoDelimiter(field)
    ensures Split(field + [Delimiter] + rest) == [field] + Split(rest)
  {
    var s := field + [Delimiter] + rest;
    if field == [] {
      assert s[0] == Delimiter && s[1..] == rest;
    } else {
      assert s[0] == field[0];
      assert s[1..] == field[1..] + [Delimiter] + rest;
      assert NoDelimiter(field[1..]) by {
        forall i | 0 <= i < |field[1..]| ensures field[1..][i] != Delimiter {
          assert field[1..][i] == field[i + 1];
        }
      }
      SplitAtDelimiter(field[1..], rest);
      assert [field[0]] + field[1..] == field;
    }
  }

  /** Splitting a joined line gives back its fields when none contains the
      delimiter. */
  lemma {:induction false} SplitJoin(fields: seq<string>)
    requires |fields| >= 1
    requires forall i :: 0 <= i < |fields| ==> NoDelimiter(fields[i])
    ensures Split(Join(fields)) == fields
  {
    if |fields| == 1 {
      SplitWithoutDelimiter(fields[0]);
    } else {
      SplitAtDelimiter(fields[0], Join(fields[1..]));
      SplitJoin(fields[1..]);
      assert [fields[0]] + fields[1..] == fields;
    }
  }

  /** Every line is the join of its fields, and no field holds the delimiter. */
  lemma {:induction false} JoinSplit(s: string)
    ensures Join(Split(s)) == s
    ensures forall i :: 0 <= i < |Split(s)| ==> NoDelimiter(Split(s)[i])
  {
    if s != [] {
      var rest := Split(s[1..]);
      JoinSplit(s[1..]);
      if s[0] == Delimiter {
        assert Split(s) == [""] + rest;
        assert [""] + rest == [""] + rest[0..];
        assert Join(Split(s)) == "" + [Delimiter] + Join(rest);
        assert s == [s[0]] + s[1..];
      } else {
        var parts := Split(s);
        assert parts == [[s[0]] + rest[0]] + rest[1..];
        if |rest| == 1 {
          assert Join(parts) == [s[0]] + rest[0];
        } else {
          assert parts[1..] == rest[1..];
          assert Join(parts) == [s[0]] + rest[0] + [Delimiter] + Join(rest[1..]);
          assert Join(rest) == rest[0] + [Delimiter] + Join(rest[1..]);
        }
        assert s == [s[0]] + s[1..];
        forall i | 0 <= i < |parts| ensures NoDelimiter(parts[i]) {
          if i == 0 {
            assert NoDelimiter(rest[0]);
          } else {
            assert parts[i] == rest[i];
          }
        }
      }
    }
  }

  // ---------------------------------------------------------------------
  // int.ToString() and int.TryParse

  predicate IsDigit(c: char) {
    '0' <= c <= '9'
  }

  predicate AllDigits(s: string) {
    forall i :: 0 <= i < |s| ==> IsDigit(s[i])
  }

  function DigitChar(d: int): char
    requires 0 <= d <= 9
  {
    ('0' as int + d) as char
  }

  /** The decimal digits of n, most significant first, without leading zeros. */
  function NatToString(n: nat): (s: string)
    ensures |s| >= 1 && AllDigits(s)
  {
    if n < 10 then [DigitChar(n)] else NatToString(n / 10) + [DigitChar(n % 10)]
  }

  /** int.ToString() in the invariant culture: a minus sign exactly for
      negatives, then decimal digits. */
  function IntToString(n: int): (s: string)
    ensures |s| >= 1 && (s[0] == '-' <==> n < 0)
    ensures AllDigits(if n < 0 then s[1..] else s) && |s| >= (if n < 0 then 2 else 1)
  {
    if n < 0 then "-" + NatToString(-n) else NatToString(n)
  }

  /** The value of a run of decimal digits (leading zeros allowed). */
  function DigitsValue(s: string): nat
    requires AllDigits(s)
  {
    if s == [] then 0 else DigitsValue(s[..|s| - 1]) * 10 + (s[|s| - 1] as int - '0' as int)
  }

  /** int.TryParse with NumberStyles.Integer: optional white space around an
      optional sign and at least one digit; fails outside the Int32 range. */
  function ParseInt(s: string): (r: Option<int>)
    ensures r.Some? ==> InInt32(r.value)
  {
    var t := Trim(s, IsNumberWhite);
    var negative := |t| > 0 && t[0] == '-';
    var digits := if |t| > 0 && (t[0] == '-' || t[0] == '+') then t[1..] else t;
    if digits == [] || !AllDigits(digits) then None
    else
      var v: int := if negative then -(DigitsValue(digits) as int) else DigitsValue(digits);
      if InInt32(v) then Some(v) else None
  }

  lemma {:induction false} DigitsValueOfNatToString(n: nat)
    ensures DigitsValue(NatToString(n)) == n
  {
    if n >= 10 {
      var s := NatToString(n);
      DigitsValueOfNatToString(n / 10);
      assert s[..|s| - 1] == NatToString(n / 10);
    }
  }

  /** Every Int32 survives formatting and parsing. */
  lemma ParseIntToString(n: int)
    requires InInt32(n)
    ensures ParseInt(IntToString(n)) == Some(n)
  {
    var s := IntToString(n);
    var m: nat := if n < 0 then -n else n;
    DigitsValueOfNatToString(m);
    var d := NatToString(m);
    assert IsDigit(d[0]) && IsDigit(d[|d| - 1]);
    TrimKeeps(s, IsNumberWhite);
    if n < 0 {
      assert s[1..] == d;
    }
  }

  // ---------------------------------------------------------------------
  // bool.ToString() and bool.TryParse

  /** bool.ToString(), also what "{flag}" interpolates to. */
  function BoolToString(b: bool): string {
    if b then "True" else "False"
  }

  function LowerAscii(c: char): char {
    if 'A' <= c <= 'Z' then (c as int + 32) as char else c
  }

  /** bool.TryParse: "true" or "false" in any letter case, after trimming. A
      flag is read only from text whose trimmed form starts with t or T
      (true) or f or F (false). */
  function ParseBool(s: string): (r: Option<bool>)
    ensures r.Some? ==> (var t := Trim(s, IsBoolTrim);
                         |t| >= 4 && LowerAscii(t[0]) == (if r.value then 't' else 'f'))
  {
    var t := Trim(s, IsBoolTrim);
    var folded := seq(|t|, i requires 0 <= i < |t| => LowerAscii(t[i]));
    if folded == "true" then
      assert folded[0] == LowerAscii(t[0]);
      Some(true)
    else if folded == "false" then
      assert folded[0] == LowerAscii(t[0]);
      Some(false)
    else None
  }

  lemma ParseBoolToString(b: bool)
    ensures ParseBool(BoolToString(b)) == Some(b)
  {
    var s := BoolToString(b);
    TrimKeeps(s, IsBoolTrim);
    var folded := seq(|s|, i requires 0 <= i < |s| => LowerAscii(s[i]));
    if b {
      assert folded == "true";
    } else {
      assert folded == "false";
    }
  }

  /** No number written by int.ToString() reads as a flag. */
  lemma ParseBoolOfIntToString(n: int)
    ensures ParseBool(IntToString(n)) == None
  {
    var s := IntToString(n);
    assert IsDigit(s[|s| - 1]);
    TrimKeeps(s, IsBoolTrim);
  }
}
