/** The string and number primitives the parsers and printers rely on. */
module Text {
  import opened Collections

  const MIN_INT: int := -0x8000_0000_0000_0000
  const MAX_INT: int := 0x7fff_ffff_ffff_ffff

  predicate IsDigit(c: char) { '0' <= c <= '9' }

  predicate AllDigits(s: string) { forall i :: 0 <= i < |s| ==> IsDigit(s[i]) }

  function DigitsValue(s: string): (n: nat)
    requires AllDigits(s)
  {
    if s == "" then 0
    else DigitsValue(s[..|s| - 1]) * 10 + (s[|s| - 1] as int - '0' as int)
  }

  /** strconv.Atoi: an optional sign, decimal digits, and the range of a 64-bit int. */
  function Atoi(s: string): Option<int> {
    if s != "" && s[0] == '-' then Signed(s[1..], -1)
    else if s != "" && s[0] == '+' then Signed(s[1..], 1)
    else Signed(s, 1)
  }

  function Signed(s: string, sign: int): Option<int>
    requires sign == 1 || sign == -1
  {
    if s == "" || !AllDigits(s) then None else
      var n := sign * DigitsValue(s);
      if MIN_INT <= n <= MAX_INT then Some(n) else None
  }

  /** strconv.Atoi with the error dropped: zero for a malformed number, the nearest bound for one out of range. */
  function AtoiOrZero(t: string): int {
    match Atoi(t)
    case Some(n) => n
    case None =>
      var digits := if t != "" && (t[0] == '-' || t[0] == '+') then t[1..] else t;
      if digits == "" || !AllDigits(digits) then 0 else if t[0] == '-' then MIN_INT else MAX_INT
  }

  function NatToString(n: nat): (s: string)
    ensures s != "" && AllDigits(s) && DigitsValue(s) == n
  {
    var last := (n % 10) as char + '0';
    if n < 10 then [last] else
      var s := NatToString(n / 10) + [last];
      assert s[..|s| - 1] == NatToString(n / 10);
      s
  }

  /** strconv.Itoa. */
  function Itoa(n: int): string {
    if n < 0 then "-" + NatToString(-n) else NatToString(n)
  }

  lemma AtoiItoa(n: int)
    requires MIN_INT <= n <= MAX_INT
    ensures Atoi(Itoa(n)) == Some(n)
  {
    if n < 0 {
      assert Itoa(n)[1..] == NatToString(-n);
    } else {
      assert IsDigit(Itoa(n)[0]);
    }
  }

  lemma NumeralNotEmpty(n: int)
    ensures Itoa(n) != ""
  {}

  /** A plus sign is allowed, two signs are not, and leading zeros do not count. */
  lemma AtoiSigns(n: nat)
    requires n <= MAX_INT
    ensures Atoi("+" + Itoa(n)) == Some(n)
    ensures Atoi("-" + Itoa(n)).Some? && Atoi("-" + Itoa(n)).value + n == 0
    ensures Atoi("--" + Itoa(n)) == None && Atoi("0" + Itoa(n)) == Some(n) && Atoi("") == None
  {
    var s := NatToString(n);
    assert ("+" + s)[1..] == s && ("-" + s)[1..] == s && ("--" + s)[1..] == "-" + s;
    assert !AllDigits("-" + s) by { assert ("-" + s)[0] == '-'; }
    LeadingZero(s);
    assert ("0" + s)[0] == '0';
  }

  lemma {:induction false} LeadingZero(s: string)
    requires AllDigits(s)
    ensures AllDigits("0" + s) && DigitsValue("0" + s) == DigitsValue(s)
  {
    if s == "" {
      assert "0" + s == "0" && "0"[..0] == "";
      assert DigitsValue("0"[..0]) == 0;
    } else {
      var t := "0" + s;
      assert t[..|t| - 1] == "0" + s[..|s| - 1] && t[|t| - 1] == s[|s| - 1];
      LeadingZero(s[..|s| - 1]);
    }
  }

  /** A number beyond 64 bits is no number, and reads as the nearest bound where the error is dropped. */
  lemma OutOfRange(n: int)
    requires n < MIN_INT || n > MAX_INT
    ensures Atoi(Itoa(n)) == None && AtoiOrZero(Itoa(n)) == if n < 0 then MIN_INT else MAX_INT
  {
    if n < 0 {
      assert Itoa(n)[0] == '-' && Itoa(n)[1..] == NatToString(-n);
    } else {
      assert Itoa(n) == NatToString(n) && IsDigit(Itoa(n)[0]);
    }
  }

  lemma InRangeReads(n: int)
    requires MIN_INT <= n <= MAX_INT
    ensures AtoiOrZero(Itoa(n)) == n
  {
    AtoiItoa(n);
  }

  /** unicode.IsSpace. */
  predicate IsSpace(c: char) {
    || c in "\t\n\U{0B}\U{0C}\r \U{85}\U{A0}\U{1680}\U{2028}\U{2029}\U{202F}\U{205F}\U{3000}"
    || '\U{2000}' <= c <= '\U{200A}'
  }

  function TrimLeft(s: string): string {
    if s != "" && IsSpace(s[0]) then TrimLeft(s[1..]) else s
  }

  function TrimRight(s: string): string {
    if s != "" && IsSpace(s[|s| - 1]) then TrimRight(s[..|s| - 1]) else s
  }

  /** strings.TrimSpace. */
  function TrimSpace(s: string): string { TrimRight(TrimLeft(s)) }

  /** c does not occur in s. */
  predicate Free(s: string, c: char) { forall k :: 0 <= k < |s| ==> s[k] != c }

  /** strings.Index for a one-character needle; -1 when absent. */
  function Index(s: string, c: char): (i: int)
    ensures -1 <= i < |s|
    ensures i >= 0 ==> s[i] == c && Free(s[..i], c)
    ensures i < 0 ==> Free(s, c)
  {
    if s == "" then -1
    else if s[0] == c then 0
    else
      var i := Index(s[1..], c);
      assert s == [s[0]] + s[1..];
      if i < 0 then -1 else assert s[..i + 1] == [s[0]] + s[1..][..i]; i + 1
  }

  /** strings.LastIndex for a one-character needle; -1 when absent. */
  function LastIndex(s: string, c: char): (i: int)
    ensures -1 <= i < |s|
    ensures i >= 0 ==> s[i] == c && Free(s[i + 1..], c)
    ensures i < 0 ==> Free(s, c)
  {
    if s == "" then -1
    else if s[|s| - 1] == c then |s| - 1
    else
      var i := LastIndex(s[..|s| - 1], c);
      assert s == s[..|s| - 1] + [s[|s| - 1]];
      if i < 0 then -1 else assert s[i + 1..] == s[..|s| - 1][i + 1..] + [s[|s| - 1]]; i
  }

  /** strings.Split for a one-character separator. */
  function Split(s: string, sep: char): (parts: seq<string>)
    ensures |parts| >= 1
    decreases |s|
  {
    var i := Index(s, sep);
    if i < 0 then [s] else
      var rest := Split(s[i + 1..], sep);
      [s[..i]] + rest
  }

  /** strings.Join for a one-character separator. */
  function Join(parts: seq<string>, sep: char): string {
    if parts == [] then ""
    else if |parts| == 1 then parts[0]
    else parts[0] + [sep] + Join(parts[1..], sep)
  }

  lemma IndexOfFirst(a: string, c: char, b: string)
    requires Free(a, c)
    ensures Index(a + [c] + b, c) == |a|
  {
    var s := a + [c] + b;
    var i := Index(s, c);
    assert s[|a|] == c;
    assert forall k :: 0 <= k < |a| ==> s[k] == a[k] && a[k] != c;
    assert forall k :: 0 <= k < i ==> s[..i][k] == s[k];
  }

  lemma {:induction false} LastIndexOfLast(a: string, c: char, b: string)
    requires Free(b, c)
    ensures LastIndex(a + [c] + b, c) == |a|
  {
    var s := a + [c] + b;
    if b != "" {
      var init := b[..|b| - 1];
      assert s[|s| - 1] == b[|b| - 1] && s[..|s| - 1] == a + [c] + init;
      LastIndexOfLast(a, c, init);
    }
  }

  lemma {:induction false} SplitJoin(parts: seq<string>, sep: char)
    requires parts != [] && forall i :: 0 <= i < |parts| ==> Free(parts[i], sep)
    ensures Split(Join(parts, sep), sep) == parts
  {
    if |parts| > 1 {
      var rest := Join(parts[1..], sep);
      var s := parts[0] + [sep] + rest;
      IndexOfFirst(parts[0], sep, rest);
      SplitJoin(parts[1..], sep);
      assert s[..|parts[0]|] == parts[0] && s[|parts[0]| + 1..] == rest;
    }
  }

  lemma TrimIsIdentity(s: string)
    requires s != "" ==> !IsSpace(s[0]) && !IsSpace(s[|s| - 1])
    ensures TrimSpace(s) == s
  {
  }

  lemma DigitsAreNotSpace(c: char)
    requires IsDigit(c)
    ensures !IsSpace(c)
  {
  }

  /** Space around a word is taken off, whatever mixture it is. */
  lemma {:induction false} SpaceGoes(left: string, s: string, right: string)
    requires forall i :: 0 <= i < |left| ==> IsSpace(left[i])
    requires forall i :: 0 <= i < |right| ==> IsSpace(right[i])
    requires s != "" && !IsSpace(s[0]) && !IsSpace(s[|s| - 1])
    ensures TrimSpace(left + s + right) == s
  {
    hide IsSpace;
    LeftGoes(left, s + right);
    assert left + s + right == left + (s + right);
    RightGoes(s, right);
  }

  lemma {:induction false} LeftGoes(left: string, s: string)
    requires (forall i :: 0 <= i < |left| ==> IsSpace(left[i])) && s != "" && !IsSpace(s[0])
    ensures TrimLeft(left + s) == s
  {
    hide IsSpace;
    if left == "" {
      assert left + s == s;
    } else {
      assert (left + s)[0] == left[0] && (left + s)[1..] == left[1..] + s;
      LeftGoes(left[1..], s);
    }
  }

  lemma {:induction false} RightGoes(s: string, right: string)
    requires (forall i :: 0 <= i < |right| ==> IsSpace(right[i])) && s != "" && !IsSpace(s[|s| - 1])
    ensures TrimRight(s + right) == s
  {
    hide IsSpace;
    if right == "" {
      assert s + right == s;
    } else {
      var t := s + right;
      assert t[|t| - 1] == right[|right| - 1] && t[..|t| - 1] == s + right[..|right| - 1];
      RightGoes(s, right[..|right| - 1]);
    }
  }

  lemma Spaces()
    ensures IsSpace(' ') && IsSpace('\t') && IsSpace('\n') && IsSpace('\r')
    ensures forall c :: '!' <= c <= '~' ==> !IsSpace(c)
  {}
}
