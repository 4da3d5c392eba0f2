/** The few operations on Go strings that the report, the batched read and the
    dialog grammars are built from. A string is the sequence of runes a `range`
    over it yields, so a byte that is not valid UTF-8 appears as U+FFFD. */
module Text {
  import opened Prelude

  /** unicode.IsControl: the C0 and C1 controls and DEL. */
  predicate IsControl(c: char) {
    c as int < 0x20 || 0x7f <= c as int <= 0x9f
  }

  /** unicode.IsSpace. */
  predicate IsSpace(c: char) {
    var n := c as int;
    || 0x09 <= n <= 0x0d || n == 0x20 || n == 0x85 || n == 0xa0
    || n == 0x1680 || 0x2000 <= n <= 0x200a || n == 0x2028 || n == 0x2029
    || n == 0x202f || n == 0x205f || n == 0x3000
  }

  predicate IsBlank(c: char) {
    IsControl(c) || IsSpace(c)
  }

  predicate IsDigit(c: char) {
    '0' <= c <= '9'
  }

  /** The bytes one rune takes in UTF-8. */
  function RuneBytes(c: char): (n: nat)
    ensures 1 <= n <= 4
  {
    var v := c as int;
    if v < 0x80 then 1 else if v < 0x800 then 2 else if v < 0x10000 then 3 else 4
  }

  /** len of a Go string. */
  function Bytes(s: string): nat {
    if s == [] then 0 else RuneBytes(s[0]) + Bytes(s[1..])
  }

  lemma {:induction false} BytesConcat(a: string, b: string)
    ensures Bytes(a + b) == Bytes(a) + Bytes(b)
  {
    if a == [] {
      assert a + b == b;
    } else {
      BytesConcat(a[1..], b);
      assert (a + b)[1..] == a[1..] + b;
    }
  }

  lemma {:induction false} BytesBounds(s: string)
    ensures |s| <= Bytes(s) <= 4 * |s|
  {
    if s != [] {
      BytesBounds(s[1..]);
    }
  }

  lemma {:induction false} BytesAscii(s: string)
    requires forall i | 0 <= i < |s| :: s[i] as int < 0x80
    ensures Bytes(s) == |s|
  {
    if s != [] {
      BytesAscii(s[1..]);
    }
  }

  // ---------------------------------------------------------------- splitting

  /** strings.Index for a single rune that is present. */
  function IndexOf(s: string, c: char): (i: nat)
    requires c in s
    ensures i < |s| && s[i] == c && c !in s[..i]
  {
    if s[0] == c then 0 else 1 + IndexOf(s[1..], c)
  }

  /** strings.Split on one rune. */
  function Split(s: string, sep: char): (parts: seq<string>)
    ensures |parts| >= 1
    decreases |s|
  {
    if sep !in s then [s]
    else
      var i := IndexOf(s, sep);
      [s[..i]] + Split(s[i + 1..], sep)
  }

  /** strings.SplitN on one rune, for a positive n: the last part keeps whatever
      separators are left. */
  function SplitN(s: string, sep: char, n: nat): (parts: seq<string>)
    requires n > 0
    ensures 1 <= |parts| <= n
    decreases n
  {
    if n == 1 || sep !in s then [s]
    else
      var i := IndexOf(s, sep);
      [s[..i]] + SplitN(s[i + 1..], sep, n - 1)
  }

  /** strings.Join. */
  function Join(parts: seq<string>, sep: char): string {
    if parts == [] then []
    else if |parts| == 1 then parts[0]
    else parts[0] + [sep] + Join(parts[1..], sep)
  }

  lemma {:induction false} IndexOfFirst(s: string, c: char, i: nat)
    requires i < |s| && s[i] == c && c !in s[..i]
    ensures IndexOf(s, c) == i
  {
    if i > 0 {
      assert s[0] == s[..i][0];
      assert s[1..][..i - 1] == s[..i][1..];
      IndexOfFirst(s[1..], c, i - 1);
    }
  }

  lemma SplitHead(head: string, sep: char, tail: string)
    requires sep !in head
    ensures Split(head + [sep] + tail, sep) == [head] + Split(tail, sep)
  {
    var s := head + [sep] + tail;
    assert s[..|head|] == head && s[|head| + 1..] == tail;
    IndexOfFirst(s, sep, |head|);
  }

  lemma SplitNHead(head: string, sep: char, tail: string, n: nat)
    requires sep !in head && n > 1
    ensures SplitN(head + [sep] + tail, sep, n) == [head] + SplitN(tail, sep, n - 1)
  {
    var s := head + [sep] + tail;
    assert s[..|head|] == head && s[|head| + 1..] == tail;
    IndexOfFirst(s, sep, |head|);
  }

  lemma SplitNCut(s: string, sep: char, n: nat) returns (head: string, rest: string)
    requires n > 1 && sep in s
    ensures s == head + [sep] + rest && sep !in head && SplitN(s, sep, n) == [head] + SplitN(rest, sep, n - 1)
  {
    var i := IndexOf(s, sep);
    head, rest := s[..i], s[i + 1..];
  }

  lemma {:induction false} SplitJoin(parts: seq<string>, sep: char)
    requires parts != []
    requires forall p | p in parts :: sep !in p
    ensures Split(Join(parts, sep), sep) == parts
  {
    if |parts| > 1 {
      SplitJoin(parts[1..], sep);
      SplitHead(parts[0], sep, Join(parts[1..], sep));
      assert parts == [parts[0]] + parts[1..];
    } else {
      assert parts == [parts[0]];
    }
  }

  lemma JoinCons(head: string, rest: seq<string>, sep: char)
    requires rest != []
    ensures Join([head] + rest, sep) == head + ([sep] + Join(rest, sep))
  {
    assert ([head] + rest)[1..] == rest;
    assert head + [sep] + Join(rest, sep) == head + ([sep] + Join(rest, sep));
  }

  lemma CutAt(s: string, i: nat)
    requires i < |s|
    ensures s[..i] + ([s[i]] + s[i + 1..]) == s
  {
  }

  lemma {:induction false} JoinSplit(s: string, sep: char)
    ensures Join(Split(s, sep), sep) == s
    decreases |s|
  {
    if sep in s {
      var i := IndexOf(s, sep);
      JoinSplit(s[i + 1..], sep);
      JoinCons(s[..i], Split(s[i + 1..], sep), sep);
      CutAt(s, i);
    }
  }

  // ------------------------------------------------------------------ numbers

  predicate AllDigits(s: string) {
    forall i | 0 <= i < |s| :: IsDigit(s[i])
  }

  /** strconv.FormatInt in base ten, for a natural number. */
  function Decimal(n: nat): (s: string)
    ensures s != [] && AllDigits(s)
  {
    var d := [('0' as int + n % 10) as char];
    if n < 10 then d else Decimal(n / 10) + d
  }

  /** The number a run of digits spells. */
  function DigitsValue(s: string): nat
    requires AllDigits(s)
  {
    if s == [] then 0
    else
      var d := s[|s| - 1];
      assert IsDigit(d);
      10 * DigitsValue(s[..|s| - 1]) + (d as int - '0' as int)
  }

  lemma {:induction false} DecimalValue(n: nat)
    ensures DigitsValue(Decimal(n)) == n
  {
    var s := Decimal(n);
    if n >= 10 {
      DecimalValue(n / 10);
      assert s[..|s| - 1] == Decimal(n / 10);
    } else {
      assert s[..|s| - 1] == [];
    }
  }

  function PowerOfTen(k: nat): (p: nat)
    ensures p >= 1
  {
    if k == 0 then 1 else 10 * PowerOfTen(k - 1)
  }

  lemma {:induction false} DecimalLength(n: nat, k: nat)
    requires k >= 1 && n < PowerOfTen(k)
    ensures |Decimal(n)| <= k
  {
    if n >= 10 {
      assert k > 1;
      assert n / 10 < PowerOfTen(k - 1);
      DecimalLength(n / 10, k - 1);
    }
  }

  /** strconv.FormatInt in base ten. */
  function FormatInt(n: int): string {
    if n < 0 then "-" + Decimal(-n) else Decimal(n)
  }

  const MAX_INT := 0x7fff_ffff_ffff_ffff

  /** strconv.Atoi: digits behind at most one sign, and a value that fits in 64 bits. */
  function Atoi(s: string): Option<int> {
    var digits := if s != "" && (s[0] == '-' || s[0] == '+') then s[1..] else s;
    if digits == "" || !AllDigits(digits) then None
    else
      var value: int := DigitsValue(digits);
      var n := if s[0] == '-' then -value else value;
      if -MAX_INT - 1 <= n <= MAX_INT then Some(n) else None
  }

  lemma AtoiFormat(n: int)
    requires -MAX_INT - 1 <= n <= MAX_INT
    ensures Atoi(FormatInt(n)) == Some(n)
  {
    DecimalValue(if n < 0 then -n else n);
    if n < 0 {
      assert FormatInt(n)[1..] == Decimal(-n);
    } else {
      assert IsDigit(Decimal(n)[0]);
    }
  }

  // ----------------------------------------------------------------- trimming

  /** strings.TrimLeft and TrimRight over a set of runes. */
  function TrimLeft(s: string, drop: char -> bool): (r: string)
    ensures |r| <= |s| && r == s[|s| - |r|..]
    ensures r != [] ==> !drop(r[0])
  {
    if s != [] && drop(s[0]) then TrimLeft(s[1..], drop) else s
  }

  function TrimRight(s: string, drop: char -> bool): (r: string)
    ensures |r| <= |s| && r == s[..|r|]
    ensures r != [] ==> !drop(r[|r| - 1])
  {
    if s != [] && drop(s[|s| - 1]) then TrimRight(s[..|s| - 1], drop) else s
  }

  function Trim(s: string, drop: char -> bool): string {
    TrimRight(TrimLeft(s, drop), drop)
  }

  /** strings.TrimSpace. */
  function TrimSpace(s: string): string {
    Trim(s, IsSpace)
  }

  lemma {:induction false} TrimLeftSnoc(s: string, c: char, drop: char -> bool)
    requires drop(c)
    ensures TrimLeft(s + [c], drop) == if TrimLeft(s, drop) == [] then [] else TrimLeft(s, drop) + [c]
  {
    if s == [] {
      assert s + [c] == [c] && [c][1..] == [];
    } else {
      FirstApart(s, c);
      if drop(s[0]) {
        TrimLeftSnoc(s[1..], c, drop);
      }
    }
  }

  lemma TrimSnoc(s: string, c: char, drop: char -> bool)
    requires drop(c)
    ensures Trim(s + [c], drop) == Trim(s, drop)
  {
    TrimLeftSnoc(s, c, drop);
    var l := TrimLeft(s, drop);
    assert (l + [c])[..|l|] == l;
  }

  lemma LastApart(s: string)
    requires s != []
    ensures s[..|s| - 1] + [s[|s| - 1]] == s
  {
  }

  lemma FirstApart(s: string, c: char)
    requires s != []
    ensures (s + [c])[1..] == s[1..] + [c] && (s + [c])[0] == s[0]
  {
  }

  /** From a to b is what is left of s once drop has been taken off both ends. */
  predicate TrimsTo(s: string, drop: char -> bool, a: nat, b: nat) {
    && a <= b <= |s| && (forall i | 0 <= i < a :: drop(s[i])) && (forall i | b <= i < |s| :: drop(s[i]))
    && (a < b ==> !drop(s[a]) && !drop(s[b - 1]))
  }

  lemma {:induction false} TrimLeftIs(s: string, drop: char -> bool)
    ensures forall i | 0 <= i < |s| - |TrimLeft(s, drop)| :: drop(s[i])
  {
    if s != [] && drop(s[0]) {
      TrimLeftIs(s[1..], drop);
      assert forall i | 0 < i < |s| :: s[i] == s[1..][i - 1];
    }
  }

  lemma {:induction false} TrimLeftAt(s: string, drop: char -> bool, a: nat)
    requires a < |s| && !drop(s[a]) && forall i | 0 <= i < a :: drop(s[i])
    ensures TrimLeft(s, drop) == s[a..]
  {
    if a > 0 {
      TrimLeftAt(s[1..], drop, a - 1);
    }
  }

  lemma {:induction false} TrimRightIs(s: string, drop: char -> bool)
    ensures forall i | |TrimRight(s, drop)| <= i < |s| :: drop(s[i])
  {
    if s != [] && drop(s[|s| - 1]) {
      TrimRightIs(s[..|s| - 1], drop);
    }
  }

  lemma RightEnd(s: string, drop: char -> bool) returns (b: nat)
    ensures b <= |s| && TrimRight(s, drop) == s[..b]
    ensures (forall i | b <= i < |s| :: drop(s[i])) && (b > 0 ==> !drop(s[b - 1]))
  {
    TrimRightIs(s, drop);
    b := |TrimRight(s, drop)|;
  }

  lemma TrimsOneMore(s: string, drop: char -> bool, a: nat, b: nat)
    requires s != [] && drop(s[0]) && TrimsTo(s[1..], drop, a, b)
    ensures TrimsTo(s, drop, a + 1, b + 1) && s[1..][a..b] == s[a + 1..b + 1]
  {
    assert forall i | 0 < i < |s| :: s[i] == s[1..][i - 1];
  }

  /** What trimming leaves. */
  lemma {:induction false} TrimIs(s: string, drop: char -> bool) returns (a: nat, b: nat)
    ensures TrimsTo(s, drop, a, b) && Trim(s, drop) == s[a..b]
  {
    if s != [] && drop(s[0]) {
      a, b := TrimIs(s[1..], drop);
      TrimsOneMore(s, drop, a, b);
      a, b := a + 1, b + 1;
    } else {
      a := 0;
      b := RightEnd(s, drop);
    }
  }

  lemma TrimIsUnique(s: string, drop: char -> bool, a: nat, b: nat)
    requires TrimsTo(s, drop, a, b)
    ensures Trim(s, drop) == s[a..b]
  {
    var k, m := TrimIs(s, drop);
  }

  /** Trimming some of what will be trimmed anyway makes no difference. */
  lemma {:induction false} TrimAfterTrim(s: string, some: char -> bool, drop: char -> bool)
    requires forall c | some(c) :: drop(c)
    ensures Trim(TrimRight(s, some), drop) == Trim(s, drop)
  {
    if s != [] && some(s[|s| - 1]) {
      TrimAfterTrim(s[..|s| - 1], some, drop);
      TrimSnoc(s[..|s| - 1], s[|s| - 1], drop);
      LastApart(s);
    }
  }

  /** What is left after trimming came from the text and is trimmed already. */
  lemma TrimSpaceKeeps(s: string)
    ensures |TrimSpace(s)| <= |s| && forall c | c in TrimSpace(s) :: c in s
    ensures TrimSpace(TrimSpace(s)) == TrimSpace(s)
  {
    var r := TrimSpace(s);
    if r != [] {
      assert TrimLeft(r, IsSpace) == r && TrimRight(r, IsSpace) == r;
    }
  }

  // ----------------------------------------------------------------- ordering

  /** strings.Compare below zero. UTF-8 orders strings as their runes do. */
  predicate Less(a: string, b: string) {
    b != [] && (a == [] || a[0] < b[0] || (a[0] == b[0] && Less(a[1..], b[1..])))
  }

  /** Up to k the two are the same, and there a ends first or has the smaller rune. */
  predicate SmallerAt(a: string, b: string, k: nat) {
    && k <= |a| && k < |b| && a[..k] == b[..k] && (k == |a| || a[k] < b[k])
  }

  lemma {:induction false} LessIs(a: string, b: string)
    ensures Less(a, b) <==> exists k: nat :: SmallerAt(a, b, k)
  {
    if b != [] && (a == [] || a[0] < b[0]) {
      assert SmallerAt(a, b, 0);
    } else if b != [] && a[0] == b[0] {
      LessIs(a[1..], b[1..]);
      if k: nat :| SmallerAt(a[1..], b[1..], k) {
        assert a[..k + 1] == [a[0]] + a[1..][..k] && b[..k + 1] == [b[0]] + b[1..][..k];
        assert SmallerAt(a, b, k + 1);
      }
      if k: nat :| SmallerAt(a, b, k) {
        assert k > 0;
        assert a[1..][..k - 1] == a[..k][1..] && b[1..][..k - 1] == b[..k][1..];
        assert SmallerAt(a[1..], b[1..], k - 1);
      }
    } else {
      forall k: nat
        ensures !SmallerAt(a, b, k)
      {
        if 0 < k <= |a| && k < |b| {
          assert a[..k][0] == a[0] && b[..k][0] == b[0];
        }
      }
    }
  }

  lemma {:induction false} LessOneWay(a: string, b: string)
    ensures Less(a, b) ==> !Less(b, a)
    ensures a != b ==> Less(a, b) || Less(b, a)
  {
    if a != [] && b != [] {
      LessOneWay(a[1..], b[1..]);
      assert a == [a[0]] + a[1..] && b == [b[0]] + b[1..];
    }
  }

  lemma {:induction false} LessChains(a: string, b: string, c: string)
    requires Less(a, b) && Less(b, c)
    ensures Less(a, c)
  {
    if a != [] && a[0] == b[0] && b[0] == c[0] {
      LessChains(a[1..], b[1..], c[1..]);
    }
  }
}
