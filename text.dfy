/** String operations the pages rely on, written out for `string = seq<char>`:
    ASCII `toLowerCase`, `includes`, `split` on one character and its inverse `join`,
    JavaScript's `trim`, `Number.prototype.toString` for integers, and `parseInt`. */
module Text {
  import opened Wrappers
  import opened Seqs

  // ---------------------------------------------------------------- case

  /** ASCII lower-casing of one character (other characters are left alone). */
  function Lower(c: char): char
  {
    if 'A' <= c <= 'Z' then (c as int + 32) as char else c
  }

  function LowerStr(s: string): (r: string)
    ensures |r| == |s|
    ensures forall i :: 0 <= i < |s| ==> r[i] == Lower(s[i])
  {
    seq(|s|, i requires 0 <= i < |s| => Lower(s[i]))
  }

  // ---------------------------------------------------------------- includes

  /** `s.includes(sub)`. */
  predicate Contains(s: string, sub: string)
  {
    sub <= s || (s != [] && Contains(s[1..], sub))
  }

  /** The empty string is part of every string. */
  lemma ContainsEmpty(s: string)
    ensures Contains(s, "")
  {
  }

  /** `sub` occurs in `s` starting at position `i`. */
  predicate OccursAt(s: string, sub: string, i: int)
  {
    0 <= i <= |s| - |sub| && s[i..i + |sub|] == sub
  }

  /** `includes` holds exactly when `sub` occurs at some position of `s`. */
  lemma {:induction false} ContainsIffOccurs(s: string, sub: string)
    ensures Contains(s, sub) <==> exists i :: OccursAt(s, sub, i)
  {
    if sub <= s {
      assert OccursAt(s, sub, 0);
    } else if s == [] {
      assert sub != [];
    } else {
      ContainsIffOccurs(s[1..], sub);
      if exists i :: OccursAt(s, sub, i) {
        var i :| OccursAt(s, sub, i);
        assert i != 0;
        assert s[1..][i - 1..i - 1 + |sub|] == sub;
        assert OccursAt(s[1..], sub, i - 1);
      }
      if Contains(s[1..], sub) {
        var j :| OccursAt(s[1..], sub, j);
        assert s[j + 1..j + 1 + |sub|] == sub;
        assert OccursAt(s, sub, j + 1);
      }
    }
  }

  // ---------------------------------------------------------------- split / join

  /** `s.split(sep)` for a one-character separator: the pieces between separators,
      empty pieces included, so there is always at least one piece. */
  function Split(s: string, sep: char): (r: seq<string>)
    ensures |r| >= 1
    ensures forall i :: 0 <= i < |r| ==> sep !in r[i]
    ensures Join(r, sep) == s
  {
    if s == [] then [""]
    else
      var rest := Split(s[1..], sep);
      if s[0] == sep then
        assert Join([""] + rest, sep) == "" + [sep] + Join(rest, sep);
        [""] + rest
      else
        var r := [[s[0]] + rest[0]] + rest[1..];
        assert r[1..] == rest[1..];
        assert Join(r, sep) == [s[0]] + Join(rest, sep);
        r
  }

  /** `parts.join(sep)`. */
  function Join(parts: seq<string>, sep: char): string
    requires |parts| >= 1
  {
    if |parts| == 1 then parts[0] else parts[0] + [sep] + Join(parts[1..], sep)
  }

  /** Four pieces joined by a separator. */
  lemma Join4(a: string, b: string, c: string, d: string, sep: char)
    ensures Join([a, b, c, d], sep) == a + [sep] + b + [sep] + c + [sep] + d
  {
    assert [a, b, c, d][1..] == [b, c, d];
    assert [b, c, d][1..] == [c, d];
    assert [c, d][1..] == [d];
    var cd := c + [sep] + d;
    assert Join([d], sep) == d;
    assert Join([c, d], sep) == cd;
    assert Join([b, c, d], sep) == b + [sep] + cd;
    Assoc3(b + [sep], c, [sep], d);
    Assoc3(a + [sep], b, [sep], cd);
    Assoc3(a + [sep] + b + [sep], c, [sep], d);
  }

  /** The last piece of a concatenation regroups. */
  lemma Assoc3(h: string, a: string, b: string, c: string)
    ensures h + a + b + c == h + (a + b + c)
  {
  }

  /** Splitting a joined list gives the list back, provided no piece holds the separator. */
  lemma {:induction false} SplitJoin(parts: seq<string>, sep: char)
    requires |parts| >= 1
    requires forall i :: 0 <= i < |parts| ==> sep !in parts[i]
    ensures Split(Join(parts, sep), sep) == parts
    decreases |parts|, |parts[0]|
  {
    var p := parts[0];
    if |parts| == 1 {
      SplitPieceNoSep(p, sep);
    } else if p == [] {
      var tail := parts[1..];
      assert Join(parts, sep) == [sep] + Join(tail, sep);
      SplitJoin(tail, sep);
      assert ([sep] + Join(tail, sep))[1..] == Join(tail, sep);
      assert [""] + tail == parts;
    } else {
      var shorter := [p[1..]] + parts[1..];
      assert shorter[1..] == parts[1..];
      assert forall i :: 1 <= i < |shorter| ==> shorter[i] == parts[i];
      SplitJoin(shorter, sep);
      assert Join(parts, sep) == [p[0]] + Join(shorter, sep);
      assert ([p[0]] + Join(shorter, sep))[1..] == Join(shorter, sep);
      assert [p[0]] + p[1..] == p;
      assert [[p[0]] + shorter[0]] + shorter[1..] == parts;
    }
  }

  lemma {:induction false} SplitPieceNoSep(p: string, sep: char)
    requires sep !in p
    ensures Split(p, sep) == [p]
  {
    if p != [] {
      SplitPieceNoSep(p[1..], sep);
      assert [p[0]] + p[1..] == p;
    }
  }

  // ---------------------------------------------------------------- trim

  /** The characters `String.prototype.trim` removes: WhiteSpace and LineTerminator of
      ECMAScript (tab, vertical tab, form feed, the Unicode space separators, no-break
      space, byte-order mark, line feed, carriage return, line and paragraph separator). */
  predicate IsJsWhitespace(c: char)
  {
    c == '\t' || c == '\n' || c == '\U{000B}' || c == '\U{000C}' || c == '\r' || c == ' '
    || c == '\U{00A0}' || c == '\U{1680}' || ('\U{2000}' <= c <= '\U{200A}')
    || c == '\U{2028}' || c == '\U{2029}' || c == '\U{202F}' || c == '\U{205F}'
    || c == '\U{3000}' || c == '\U{FEFF}'
  }

  /** Removal of leading characters of class `space` (the lemmas below hold for any class,
      so they are stated once for an arbitrary one and used with `IsJsWhitespace`). */
  function TrimStartWith(space: char -> bool, s: string): (r: string)
    ensures |r| <= |s| && r == s[|s| - |r|..]
    ensures forall k :: 0 <= k < |s| - |r| ==> space(s[k])
    ensures r != [] ==> !space(r[0])
  {
    if s != [] && space(s[0]) then
      var r := TrimStartWith(space, s[1..]);
      assert s[1..][|s| - 1 - |r|..] == s[|s| - |r|..];
      assert forall k :: 1 <= k < |s| - |r| ==> s[k] == s[1..][k - 1];
      r
    else s
  }

  /** Removal of trailing characters of class `space`. */
  function TrimEndWith(space: char -> bool, s: string): (r: string)
    ensures r <= s
    ensures forall k :: |r| <= k < |s| ==> space(s[k])
    ensures r != [] ==> !space(r[|r| - 1])
  {
    if s != [] && space(s[|s| - 1]) then TrimEndWith(space, s[..|s| - 1]) else s
  }

  /** `r` is `s[i..i + |r|]` and everything cut off on either side is of class `space`. */
  predicate IsTrimmedSlice(space: char -> bool, s: string, r: string, i: int)
  {
    && 0 <= i && i + |r| <= |s| && r == s[i..i + |r|]
    && (forall k :: 0 <= k < i ==> space(s[k]))
    && (forall k :: i + |r| <= k < |s| ==> space(s[k]))
  }

  /** Removal of characters of class `space` at both ends: a slice of `s` whose cut-off parts
      are all of that class and whose two ends are not. */
  function TrimWith(space: char -> bool, s: string): (r: string)
    ensures IsTrimmedSlice(space, s, r, |s| - |TrimStartWith(space, s)|)
    ensures r != [] ==> !space(r[0]) && !space(r[|r| - 1])
  {
    var t := TrimStartWith(space, s);
    var r := TrimEndWith(space, t);
    TrimmedSliceOf(space, s, t, r);
    r
  }

  /** Cutting a prefix and then a suffix of class `space` leaves a trimmed slice. */
  lemma TrimmedSliceOf(space: char -> bool, s: string, t: string, r: string)
    requires |t| <= |s| && t == s[|s| - |t|..] && forall k :: 0 <= k < |s| - |t| ==> space(s[k])
    requires r <= t && forall k :: |r| <= k < |t| ==> space(t[k])
    ensures IsTrimmedSlice(space, s, r, |s| - |t|)
    ensures r != [] ==> r[0] == t[0]
  {
    var i := |s| - |t|;
    assert r == t[..|r|];
    assert r == s[i..i + |r|];
    forall k | i + |r| <= k < |s|
      ensures space(s[k])
    {
      assert s[k] == t[k - i];
    }
  }

  /** `s.trimStart()`. */
  function TrimStart(s: string): string
  {
    TrimStartWith(IsJsWhitespace, s)
  }

  /** `s.trim()`. */
  function Trim(s: string): string
  {
    TrimWith(IsJsWhitespace, s)
  }

  /** A string with no whitespace at either end is its own trim. */
  lemma TrimNoOuterSpace(s: string)
    requires s == [] || (!IsJsWhitespace(s[0]) && !IsJsWhitespace(s[|s| - 1]))
    ensures Trim(s) == s
  {
    var r := Trim(s);
    var i := |s| - |TrimStartWith(IsJsWhitespace, s)|;
    assert IsTrimmedSlice(IsJsWhitespace, s, r, i);
    if s != [] {
      assert i == 0;
      assert i + |r| == |s|;
    }
  }

  /** A string trims to nothing exactly when every character of it is whitespace. */
  lemma TrimBlank(s: string)
    ensures Trim(s) == [] <==> forall k :: 0 <= k < |s| ==> IsJsWhitespace(s[k])
  {
    TrimWithBlank(IsJsWhitespace, s);
  }

  /** Trimming leaves nothing exactly when every character is of class `space`. */
  lemma TrimWithBlank(space: char -> bool, s: string)
    ensures TrimWith(space, s) == [] <==> forall k :: 0 <= k < |s| ==> space(s[k])
  {
    var r := TrimWith(space, s);
    var i := |s| - |TrimStartWith(space, s)|;
    assert IsTrimmedSlice(space, s, r, i);
    if r != [] {
      assert r[0] == s[i];
    }
  }

  /** `xs.filter(Boolean)` on strings: the non-empty ones, in order. */
  function KeepNonEmpty(xs: seq<string>): (r: seq<string>)
    ensures |r| <= |xs| && IsSubsequence(r, xs)
    ensures forall i :: 0 <= i < |r| ==> r[i] != "" && r[i] in xs
    ensures forall i :: 0 <= i < |xs| && xs[i] != "" ==> xs[i] in r
    ensures forall x :: multiset(r)[x] == if x != "" then multiset(xs)[x] else 0
  {
    FilterIsSubsequence(s => s != "", xs);
    FilterMultiset(s => s != "", xs);
    Filter(s => s != "", xs)
  }

  /** `KeepNonEmpty` one element at a time. */
  lemma KeepNonEmptyCons(xs: seq<string>)
    requires xs != []
    ensures KeepNonEmpty(xs) == (if xs[0] != "" then [xs[0]] else []) + KeepNonEmpty(xs[1..])
  {
  }

  /** Four boxes of which only the first is empty keep the last three. */
  lemma KeepNonEmptyLastThree(a: string, b: string, c: string, d: string)
    requires a == "" && b != "" && c != "" && d != ""
    ensures KeepNonEmpty([a, b, c, d]) == [b, c, d]
  {
    assert [d][1..] == [];
    KeepNonEmptyCons([d]);
    assert [c, d][1..] == [d];
    KeepNonEmptyCons([c, d]);
    assert [b, c, d][1..] == [c, d];
    KeepNonEmptyCons([b, c, d]);
    assert [a, b, c, d][1..] == [b, c, d];
    KeepNonEmptyCons([a, b, c, d]);
  }

  // ---------------------------------------------------------------- decimal numbers

  predicate IsDigit(c: char) { '0' <= c <= '9' }

  predicate AllDigits(s: string) { forall i :: 0 <= i < |s| ==> IsDigit(s[i]) }

  function DigitChar(d: nat): (c: char)
    requires d < 10
    ensures IsDigit(c) && c as int - '0' as int == d
  {
    (d + '0' as int) as char
  }

  /** The number a string of decimal digits denotes. */
  function DecimalValue(s: string): nat
    requires AllDigits(s)
  {
    if s == [] then 0 else 10 * DecimalValue(s[..|s| - 1]) + (s[|s| - 1] as int - '0' as int)
  }

  /** A string of digits holds no other character. */
  lemma DigitsLackChar(s: string, c: char)
    requires AllDigits(s) && !IsDigit(c)
    ensures c !in s
  {
  }

  /** `n.toString()` for a natural number: its decimal digits, without leading zeros. */
  function NatToString(n: nat): (r: string)
    ensures |r| >= 1 && AllDigits(r)
    ensures r[0] == '0' ==> n == 0
    ensures n < 10 <==> |r| == 1
  {
    if n < 10 then [DigitChar(n)] else NatToString(n / 10) + [DigitChar(n % 10)]
  }

  /** Printing then reading back a number gives the number. */
  lemma {:induction false} NatToStringValue(n: nat)
    ensures DecimalValue(NatToString(n)) == n
  {
    if n >= 10 {
      NatToStringValue(n / 10);
      var s := NatToString(n);
      assert s[..|s| - 1] == NatToString(n / 10);
    }
  }

  /** `i.toString()` for an integer. */
  function IntToString(i: int): (r: string)
    ensures r != []
  {
    if i < 0 then "-" + NatToString(-i) else NatToString(i)
  }

  /** A printed integer holds digits and at most a minus sign. */
  lemma IntToStringChars(i: int, c: char)
    requires !IsDigit(c) && c != '-'
    ensures c !in IntToString(i)
  {
    var digits := NatToString(if i < 0 then -i else i);
    assert forall k :: 0 <= k < |digits| ==> IsDigit(digits[k]);
  }

  // ---------------------------------------------------------------- parseInt

  predicate IsHexDigit(c: char)
  {
    IsDigit(c) || 'a' <= c <= 'f' || 'A' <= c <= 'F'
  }

  function HexDigitValue(c: char): nat
    requires IsHexDigit(c)
  {
    if IsDigit(c) then c as int - '0' as int
    else if 'a' <= c <= 'f' then c as int - 'a' as int + 10
    else c as int - 'A' as int + 10
  }

  function HexValue(s: string): nat
    requires forall i :: 0 <= i < |s| ==> IsHexDigit(s[i])
  {
    if s == [] then 0 else 16 * HexValue(s[..|s| - 1]) + HexDigitValue(s[|s| - 1])
  }

  /** The longest prefix of `s` made of decimal digits. */
  function DigitPrefix(s: string): (r: string)
    ensures r <= s && AllDigits(r)
    ensures |r| < |s| ==> !IsDigit(s[|r|])
  {
    if s != [] && IsDigit(s[0]) then [s[0]] + DigitPrefix(s[1..]) else ""
  }

  /** The longest prefix of `s` made of hexadecimal digits. */
  function HexPrefix(s: string): (r: string)
    ensures r <= s && forall i :: 0 <= i < |r| ==> IsHexDigit(r[i])
    ensures |r| < |s| ==> !IsHexDigit(s[|r|])
  {
    if s != [] && IsHexDigit(s[0]) then [s[0]] + HexPrefix(s[1..]) else ""
  }

  /** The digits that follow the sign: base 16 after a `0x`/`0X` prefix, base 10 otherwise;
      `None` when no digit follows. */
  function ParseUnsigned(u: string): Option<nat>
  {
    if |u| >= 2 && u[0] == '0' && (u[1] == 'x' || u[1] == 'X') then
      var h := HexPrefix(u[2..]);
      if h == [] then None else Some(HexValue(h))
    else
      var d := DigitPrefix(u);
      if d == [] then None else Some(DecimalValue(d))
  }

  /** `parseInt(s)` without a radix: leading whitespace is skipped, then an optional sign,
      then a `0x`/`0X` prefix switches to base 16; the longest run of digits that follows is
      read and the rest ignored. `None` stands for `NaN` (no digit at all). */
  function ParseIntJs(s: string): Option<int>
  {
    var t := TrimStart(s);
    var signed := t != [] && (t[0] == '-' || t[0] == '+');
    var u := if signed then t[1..] else t;
    match ParseUnsigned(u)
    case None => None
    case Some(v) =>
      var n: int := v;
      Some(if t != [] && t[0] == '-' then -n else n)
  }

  lemma TrimStartNoLeading(s: string)
    requires s == [] || !IsJsWhitespace(s[0])
    ensures TrimStart(s) == s
  {
  }

  /** A printed number followed by text that cannot continue it reads back as that number:
      `parseInt` takes the leading integer of a field. */
  lemma ParseIntLeadingNumber(n: nat, rest: string)
    requires rest == [] || !IsDigit(rest[0])
    requires n == 0 && rest != [] ==> rest[0] != 'x' && rest[0] != 'X'
    ensures ParseIntJs(NatToString(n) + rest) == Some(n)
  {
    var digits := NatToString(n);
    var s := digits + rest;
    assert s[0] == digits[0];
    TrimStartNoLeading(s);
    assert !(|s| >= 2 && s[0] == '0' && (s[1] == 'x' || s[1] == 'X')) by {
      if |s| >= 2 && s[0] == '0' {
        assert n == 0 && |digits| == 1;
        assert s[1] == rest[0];
      }
    }
    ParseUnsignedDecimal(digits, rest);
    NatToStringValue(n);
    assert TrimStart(s) == s && !(s[0] == '-' || s[0] == '+');
  }

  /** Digits followed by a non-digit, with no hexadecimal prefix, read as their decimal value. */
  lemma ParseUnsignedDecimal(digits: string, rest: string)
    requires AllDigits(digits) && digits != []
    requires rest == [] || !IsDigit(rest[0])
    requires var s := digits + rest; !(|s| >= 2 && s[0] == '0' && (s[1] == 'x' || s[1] == 'X'))
    ensures ParseUnsigned(digits + rest) == Some(DecimalValue(digits))
  {
    DigitPrefixOfDigits(digits, rest);
  }

  lemma {:induction false} DigitPrefixOfDigits(digits: string, rest: string)
    requires AllDigits(digits)
    requires rest == [] || !IsDigit(rest[0])
    ensures DigitPrefix(digits + rest) == digits
  {
    if digits != [] {
      assert (digits + rest)[1..] == digits[1..] + rest;
      DigitPrefixOfDigits(digits[1..], rest);
      assert [digits[0]] + digits[1..] == digits;
    } else {
      assert digits + rest == rest;
    }
  }

  /** A field with no digit where a number should start reads as `NaN`. */
  lemma ParseIntNoDigits(s: string)
    requires TrimStart(s) == [] || (!IsDigit(TrimStart(s)[0]) && TrimStart(s)[0] != '-' && TrimStart(s)[0] != '+')
    ensures ParseIntJs(s) == None
  {
  }
}
