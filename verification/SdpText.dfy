/**
 The string operations the SDP adapter is built from (strconv and strings of the Go
 library), with the inverses the adapter relies on.
 */
module SdpText {
  import opened Wrap

  // ---- Decimal numbers ----

  predicate IsDigit(c: char) { '0' <= c <= '9' }

  function DigitValue(c: char): nat
    requires IsDigit(c)
  {
    c as int - '0' as int
  }

  function DigitChar(d: nat): (c: char)
    requires d < 10
    ensures IsDigit(c) && DigitValue(c) == d
  {
    (d + '0' as int) as char
  }

  function Itoa(n: nat): (s: string)
    ensures s != []
  {
    if n < 10 then [DigitChar(n)] else Itoa(n / 10) + [DigitChar(n % 10)]
  }

  /** The number a digit string denotes; None for an empty string or any other character. */
  function Decimal(s: string): Option<nat> {
    if s == [] then None
    else
      var k := |s| - 1;
      if !IsDigit(s[k]) then None
      else if k == 0 then Some(DigitValue(s[k]))
      else
        var high := Decimal(s[..k]);
        if high.None? then None else Some(high.value * 10 + DigitValue(s[k]))
  }

  /** strconv.ParseUint in base 10 for numbers below the given bound. */
  function ParseUint(s: string, bound: nat): Option<nat> {
    var n := Decimal(s);
    if n.Some? && n.value < bound then n else None
  }

  lemma {:induction false} DecimalOfItoa(n: nat)
    ensures Decimal(Itoa(n)) == Some(n)
    ensures forall i :: 0 <= i < |Itoa(n)| ==> IsDigit(Itoa(n)[i])
  {
    if n >= 10 {
      DecimalOfItoa(n / 10);
      assert Itoa(n)[..|Itoa(n)| - 1] == Itoa(n / 10);
    }
  }

  function Zeros(k: nat): string { seq(k, _ => '0') }

  /** s is n in decimal, leading zeros allowed. */
  predicate Spelled(s: string, n: nat) { |s| >= |Itoa(n)| && s == Zeros(|s| - |Itoa(n)|) + Itoa(n) }

  lemma {:induction false} SpelledIsDecimal(k: nat, n: nat)
    ensures Decimal(Zeros(k) + Itoa(n)) == Some(n)
  {
    var s := Zeros(k) + Itoa(n);
    if n >= 10 {
      assert s[..|s| - 1] == Zeros(k) + Itoa(n / 10) && s[|s| - 1] == DigitChar(n % 10);
      SpelledIsDecimal(k, n / 10);
    } else if k > 0 {
      assert s[..|s| - 1] == Zeros(k) == Zeros(k - 1) + Itoa(0) && s[|s| - 1] == DigitChar(n);
      SpelledIsDecimal(k - 1, 0);
    } else {
      assert s == Itoa(n);
    }
  }

  lemma {:induction false} DecimalIsSpelled(s: string, n: nat)
    requires Decimal(s) == Some(n)
    ensures Spelled(s, n)
  {
    var k := |s| - 1;
    if k == 0 {
      assert s == [DigitChar(n)] == Itoa(n) && Zeros(0) + Itoa(n) == Itoa(n);
    } else {
      var h := Decimal(s[..k]).value;
      var d := DigitValue(s[k]);
      DecimalIsSpelled(s[..k], h);
      assert n == h * 10 + d && n / 10 == h && n % 10 == d && DigitChar(d) == s[k];
      assert s == s[..k] + [s[k]];
      if h > 0 {
        assert Itoa(n) == Itoa(h) + [s[k]];
      } else {
        assert Itoa(0) == "0" && Itoa(n) == [s[k]] && s[..k] == Zeros(k);
      }
    }
  }

  /** A string denotes a number exactly when it is that number in decimal, after any zeros. */
  lemma DecimalIff(s: string, n: nat)
    ensures Decimal(s) == Some(n) <==> Spelled(s, n)
  {
    if Decimal(s) == Some(n) {
      DecimalIsSpelled(s, n);
    }
    if Spelled(s, n) {
      SpelledIsDecimal(|s| - |Itoa(n)|, n);
    }
  }

  // ---- Field splitting ----

  /** unicode.IsSpace */
  predicate IsSpace(c: char) {
    || c == ' ' || '\t' <= c <= '\r' || c == '\U{85}' || c == '\U{a0}' || c == '\U{1680}'
    || '\U{2000}' <= c <= '\U{200a}' || c == '\U{2028}' || c == '\U{2029}' || c == '\U{202f}'
    || c == '\U{205f}' || c == '\U{3000}'
  }

  /** Among the ASCII characters the spaces are blank, tab, line feed, vertical tab, form feed and carriage return. */
  lemma AsciiSpaces(c: char)
    requires c as int < 128
    ensures IsSpace(c) <==> c as int in {9, 10, 11, 12, 13, 32}
  {
  }

  function AppendField(fields: seq<string>, field: string): seq<string> {
    if field == [] then fields else fields + [field]
  }

  /** strings.Fields: `field` is the field being read at position i. */
  function FieldsFrom(s: string, i: nat, field: string, fields: seq<string>): seq<string>
    requires i <= |s|
    decreases |s| - i
  {
    if i == |s| then AppendField(fields, field)
    else if IsSpace(s[i]) then FieldsFrom(s, i + 1, [], AppendField(fields, field))
    else FieldsFrom(s, i + 1, field + [s[i]], fields)
  }

  function Fields(s: string): seq<string> { FieldsFrom(s, 0, [], []) }

  ghost predicate Solid(s: string) { s != [] && forall i :: 0 <= i < |s| ==> !IsSpace(s[i]) }

  /** Reading on through characters that are no spaces. */
  lemma {:induction false} FieldsRun(s: string, i: nat, j: nat, field: string, fields: seq<string>)
    requires i <= j <= |s| && forall k :: i <= k < j ==> !IsSpace(s[k])
    ensures FieldsFrom(s, i, field, fields) == FieldsFrom(s, j, field + s[i..j], fields)
    decreases j - i
  {
    if i < j {
      FieldsRun(s, i + 1, j, field + [s[i]], fields);
      assert field + [s[i]] + s[i + 1..j] == field + s[i..j];
    } else {
      assert field + s[i..j] == field;
    }
  }

  lemma {:induction false} FieldsShift(s: string, k: nat, i: nat, field: string, fields: seq<string>)
    requires k + i <= |s|
    ensures FieldsFrom(s, k + i, field, fields) == FieldsFrom(s[k..], i, field, fields)
    decreases |s| - i
  {
    if k + i < |s| {
      if IsSpace(s[k + i]) {
        FieldsShift(s, k, i + 1, [], AppendField(fields, field));
      } else {
        FieldsShift(s, k, i + 1, field + [s[k + i]], fields);
      }
    }
  }

  lemma {:induction false} FieldsAfter(s: string, i: nat, field: string, fields: seq<string>)
    requires i <= |s|
    ensures FieldsFrom(s, i, field, fields) == fields + FieldsFrom(s, i, field, [])
    decreases |s| - i
  {
    if i < |s| {
      if IsSpace(s[i]) {
        FieldsAfter(s, i + 1, [], AppendField(fields, field));
        FieldsAfter(s, i + 1, [], AppendField([], field));
      } else {
        FieldsAfter(s, i + 1, field + [s[i]], fields);
      }
    }
  }

  predicate Blank(s: string) { forall i :: 0 <= i < |s| ==> IsSpace(s[i]) }

  /** Spaces in front are skipped. */
  lemma {:induction false} FieldsSkip(blank: string, rest: string)
    requires Blank(blank)
    ensures Fields(blank + rest) == Fields(rest)
  {
    if blank == [] {
      assert blank + rest == rest;
    } else {
      var s := blank + rest;
      assert s[1..] == blank[1..] + rest;
      FieldsShift(s, 1, 0, [], []);
      FieldsSkip(blank[1..], rest);
    }
  }

  /** A run without spaces, up to a space or the end, is one field. */
  lemma FieldsTake(a: string, rest: string)
    requires Solid(a) && (rest == [] || IsSpace(rest[0]))
    ensures Fields(a + rest) == [a] + Fields(rest)
  {
    var s := a + rest;
    FieldsRun(s, 0, |a|, [], []);
    assert [] + s[0..|a|] == a;
    if rest != [] {
      assert AppendField([], a) == [a];
      FieldsAfter(s, |a| + 1, [], [a]);
      FieldsShift(s, |a|, 1, [], []);
      assert s[|a|..] == rest;
    }
  }

  lemma {:induction false} FieldsNone(s: string)
    ensures Fields(s) == [] <==> Blank(s)
  {
    if s != [] {
      assert s == [s[0]] + s[1..];
      if IsSpace(s[0]) {
        FieldsSkip([s[0]], s[1..]);
        FieldsNone(s[1..]);
        assert Blank(s) <==> Blank(s[1..]);
      } else {
        var n := RunLength(s);
        FieldsTake(s[..n], s[n..]);
        assert s == s[..n] + s[n..];
      }
    }
  }

  /** The length of the run without spaces at the start of s. */
  function RunLength(s: string): (n: nat)
    ensures n <= |s| && (forall i :: 0 <= i < n ==> !IsSpace(s[i])) && (n < |s| ==> IsSpace(s[n]))
  {
    if s == [] || IsSpace(s[0]) then 0 else RunLength(s[1..]) + 1
  }

  /** The first field is the first run without spaces, and the rest are the fields after it. */
  lemma {:induction false} FieldsFirst(s: string) returns (blank: string, field: string, rest: string)
    requires Fields(s) != []
    ensures s == blank + field + rest && Blank(blank) && Solid(field) && (rest == [] || IsSpace(rest[0]))
    ensures Fields(s) == [field] + Fields(rest)
  {
    FieldsNone(s);
    assert s == [s[0]] + s[1..];
    if IsSpace(s[0]) {
      FieldsSkip([s[0]], s[1..]);
      blank, field, rest := FieldsFirst(s[1..]);
      blank := [s[0]] + blank;
    } else {
      var n := RunLength(s);
      blank, field, rest := [], s[..n], s[n..];
      FieldsTake(field, rest);
    }
  }

  lemma FieldsOfOne(a: string)
    requires Solid(a)
    ensures Fields(a) == [a]
  {
    FieldsRun(a, 0, |a|, [], []);
    assert [] + a[0..|a|] == a;
  }

  lemma FieldsOfTwo(a: string, b: string)
    requires Solid(a) && Solid(b)
    ensures Fields(a + " " + b) == [a, b]
  {
    var s := a + " " + b;
    FieldsRun(s, 0, |a|, [], []);
    assert [] + s[0..|a|] == a;
    assert IsSpace(s[|a|]) && AppendField([], a) == [a];
    FieldsRun(s, |a| + 1, |s|, [], [a]);
    assert [] + s[|a| + 1..|s|] == b && AppendField([a], b) == [a, b];
  }

  /** strings.Split(s, "/") */
  function SplitSlash(s: string): (parts: seq<string>)
    ensures parts != []
  {
    if s == [] then [[]]
    else
      var rest := SplitSlash(s[1..]);
      if s[0] == '/' then [[]] + rest else [[s[0]] + rest[0]] + rest[1..]
  }

  lemma {:induction false} SplitNoSlash(s: string)
    requires '/' !in s
    ensures SplitSlash(s) == [s]
  {
    if s != [] {
      SplitNoSlash(s[1..]);
      assert [s[0]] + s[1..] == s;
    }
  }

  lemma {:induction false} SplitOnce(a: string, b: string)
    requires '/' !in a && '/' !in b
    ensures SplitSlash(a + "/" + b) == [a, b]
  {
    var s := a + "/" + b;
    if a == [] {
      assert s[1..] == b;
      SplitNoSlash(b);
    } else {
      assert s[1..] == a[1..] + "/" + b;
      SplitOnce(a[1..], b);
      assert [a[0]] + a[1..] == a;
    }
  }

  /** Parts with a slash between them. */
  function Join(parts: seq<string>): string
    requires parts != []
  {
    if |parts| == 1 then parts[0] else parts[0] + "/" + Join(parts[1..])
  }

  /** A slash after a part without one ends it. */
  lemma {:induction false} SplitFirst(a: string, rest: string)
    requires '/' !in a
    ensures SplitSlash(a + "/" + rest) == [a] + SplitSlash(rest)
  {
    var s := a + "/" + rest;
    if a == [] {
      assert s[1..] == rest;
    } else {
      assert s[1..] == a[1..] + "/" + rest;
      SplitFirst(a[1..], rest);
      assert [a[0]] + a[1..] == a;
    }
  }

  /** Splitting gives the parts without slashes that, joined again, are the string. */
  lemma {:induction false} SplitMeans(s: string)
    ensures Join(SplitSlash(s)) == s
    ensures forall i :: 0 <= i < |SplitSlash(s)| ==> '/' !in SplitSlash(s)[i]
  {
    if '/' in s {
      var n := SlashAt(s);
      assert s == s[..n] + "/" + s[n + 1..];
      SplitFirst(s[..n], s[n + 1..]);
      SplitMeans(s[n + 1..]);
      assert SplitSlash(s)[1..] == SplitSlash(s[n + 1..]);
    } else {
      SplitNoSlash(s);
    }
  }

  function SlashAt(s: string): (n: nat)
    requires '/' in s
    ensures n < |s| && s[n] == '/' && '/' !in s[..n]
  {
    if s[0] == '/' then 0
    else
      assert s == [s[0]] + s[1..];
      var n := SlashAt(s[1..]) + 1;
      assert s[..n] == [s[0]] + s[1..][..n - 1];
      n
  }

  // ---- Upper case ----

  function UpperChar(c: char): char {
    if 'a' <= c <= 'z' then (c as int - 32) as char else c
  }

  /** strings.ToUpper on the characters codec names are made of. */
  function ToUpper(s: string): string {
    if s == [] then [] else [UpperChar(s[0])] + ToUpper(s[1..])
  }

  lemma {:induction false} UpperStays(s: string)
    requires forall i :: 0 <= i < |s| ==> !('a' <= s[i] <= 'z')
    ensures ToUpper(s) == s
  {
    if s != [] {
      UpperStays(s[1..]);
    }
  }

  /** Small letters become the capitals of the same place in the alphabet and nothing else changes. */
  lemma {:induction false} UpperMeans(s: string)
    ensures |ToUpper(s)| == |s|
    ensures forall i :: 0 <= i < |s| ==>
      ToUpper(s)[i] as int == if 'a' <= s[i] <= 'z' then s[i] as int - 'a' as int + 'A' as int else s[i] as int
  {
    if s != [] {
      UpperMeans(s[1..]);
    }
  }
}
