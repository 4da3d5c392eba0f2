/** What encoding/json does to a value it carries across as raw bytes: whitespace is laid
    out anew, and json.Marshal writes five characters as escapes (section 7 of RFC 8259
    lets any character of a string be written either way). */
module JsonText {
  import opened Prelude

  /** How json.Marshal writes a character of a value it was given raw. */
  function Escape(c: char): (r: string)
    ensures r == [c] || (|r| == 6 && r[0] == '\\' && '\\' !in r[1..])
  {
    if c == '<' then "\\u003c"
    else if c == '>' then "\\u003e"
    else if c == '&' then "\\u0026"
    else if c == '\U{2028}' then "\\u2028"
    else if c == '\U{2029}' then "\\u2029"
    else [c]
  }

  function Escaped(s: string): string {
    if s == [] then [] else Escape(s[0]) + Escaped(s[1..])
  }

  predicate IsPlain(c: char) {
    Escape(c) == [c]
  }

  /** A backslash always escapes something, and never one of the five. */
  predicate WellEscaped(s: string) {
    if s == [] then true
    else if s[0] != '\\' then WellEscaped(s[1..])
    else |s| > 1 && IsPlain(s[1]) && WellEscaped(s[2..])
  }

  /** The compacted text of a JSON value, as far as its escapes go. */
  type Value = s: string | WellEscaped(s) witness ""

  /** The character of the five this text begins by spelling out, if any. */
  function Spelled(s: string): (r: Option<char>)
    ensures r.Some? ==> |s| >= 6 && s[..6] == Escape(r.value) && !IsPlain(r.value)
  {
    if "\\u003c" <= s then Some('<')
    else if "\\u003e" <= s then Some('>')
    else if "\\u0026" <= s then Some('&')
    else if "\\u2028" <= s then Some('\U{2028}')
    else if "\\u2029" <= s then Some('\U{2029}')
    else None
  }

  /** What a text says, however it spells the five. */
  function Says(s: string): string {
    if s == [] then []
    else if Spelled(s).Some? then [Spelled(s).value] + Says(s[6..])
    else if s[0] == '\\' && |s| > 1 then s[..2] + Says(s[2..])
    else [s[0]] + Says(s[1..])
  }

  lemma SpelledOut(c: char, rest: string)
    requires !IsPlain(c)
    ensures Spelled(Escape(c) + rest) == Some(c)
  {
    var s := Escape(c) + rest;
    assert s[..6] == Escape(c);
    assert s[4..6] == Escape(c)[4..6];
  }

  lemma {:induction false} EscapedPlain(s: string)
    requires forall i | 0 <= i < |s| :: IsPlain(s[i])
    ensures Escaped(s) == s
  {
    if s != [] {
      EscapedPlain(s[1..]);
    }
  }

  lemma {:induction false} EscapedIsPlain(s: string)
    ensures forall i | 0 <= i < |Escaped(s)| :: IsPlain(Escaped(s)[i])
  {
    if s != [] {
      EscapedIsPlain(s[1..]);
    }
  }

  /** A text comes out as it went in exactly when none of the five is in it. */
  lemma EscapedIsSame(s: string)
    ensures Escaped(s) == s <==> forall i | 0 <= i < |s| :: IsPlain(s[i])
  {
    EscapedIsPlain(s);
    if forall i | 0 <= i < |s| :: IsPlain(s[i]) {
      EscapedPlain(s);
    }
  }

  /** Escaping twice is escaping once. */
  lemma EscapedTwice(s: string)
    ensures Escaped(Escaped(s)) == Escaped(s)
  {
    EscapedIsPlain(s);
    EscapedPlain(Escaped(s));
  }

  /** What stands in an escaped text in front of its first backslash was there before. */
  lemma {:induction false} PlainPrefix(s: string, k: nat)
    requires k <= |Escaped(s)| && '\\' !in Escaped(s)[..k]
    ensures k <= |s| && s[..k] == Escaped(s)[..k] && Escaped(s)[k..] == Escaped(s[k..])
  {
    if k > 0 {
      assert Escaped(s)[..k][0] == Escaped(s)[0];
      assert Escaped(s) == [s[0]] + Escaped(s[1..]);
      assert Escaped(s)[..k][1..] == Escaped(s[1..])[..k - 1];
      PlainPrefix(s[1..], k - 1);
      assert s[1..][k - 1..] == s[k..];
    }
  }

  lemma HeadBefore(s: string, r: string)
    requires s != [] && s[0] == '\\' && |r| == 6 && '\\' !in r[1..] && r <= Escaped(s)
    ensures r <= s
  {
    var later := Escaped(s[1..]);
    assert Escaped(s) == ['\\'] + later;
    assert later[..5] == r[1..] by {
      assert forall i | 0 <= i < 5 :: later[i] == r[i + 1];
    }
    PlainPrefix(s[1..], 5);
    assert r == ['\\'] + s[1..][..5];
  }

  /** Escaping spells out no character of a text that starts with a backslash. */
  lemma SpelledBefore(s: string)
    requires s != [] && s[0] == '\\' && Spelled(Escaped(s)).Some?
    ensures Spelled(s) == Spelled(Escaped(s))
  {
    var c := Spelled(Escaped(s)).value;
    HeadBefore(s, Escape(c));
    assert s == Escape(c) + s[6..];
    SpelledOut(c, s[6..]);
  }

  /** Escaping keeps a character that is spelled out spelled out. */
  lemma SpelledIsKept(s: string)
    requires Spelled(s).Some?
    ensures Escaped(s) == s[..6] + Escaped(s[6..]) && Spelled(Escaped(s)) == Spelled(s)
  {
    var r := s[..6];
    EscapedIsPlain([Spelled(s).value]);
    assert Escaped([Spelled(s).value]) == r;
    EscapedPlain(r);
    EscapedConcat(r, s[6..]);
    assert s == r + s[6..];
    SpelledOut(Spelled(s).value, Escaped(s[6..]));
  }

  lemma {:induction false} EscapedConcat(a: string, b: string)
    ensures Escaped(a + b) == Escaped(a) + Escaped(b)
  {
    if a == [] {
      assert a + b == b;
    } else {
      var r := Escape(a[0]);
      assert Escaped(a + b) == r + Escaped(a[1..] + b) by {
        assert (a + b)[0] == a[0] && (a + b)[1..] == a[1..] + b;
      }
      EscapedConcat(a[1..], b);
      assert r + (Escaped(a[1..]) + Escaped(b)) == (r + Escaped(a[1..])) + Escaped(b);
    }
  }

  lemma SpelledEnds(s: string)
    requires Spelled(s).Some? && WellEscaped(s)
    ensures WellEscaped(s[6..])
  {
    var r := s[..6];
    assert s[2..] == r[2..] + s[6..];
    assert '\\' !in r[2..] by {
      assert r[2..] == r[1..][1..];
    }
    WellSkips(r[2..], s[6..]);
  }

  lemma {:induction false} WellSkips(a: string, b: string)
    requires '\\' !in a
    ensures WellEscaped(a + b) <==> WellEscaped(b)
  {
    if a == [] {
      assert a + b == b;
    } else {
      WellSkips(a[1..], b);
      assert (a + b)[0] == a[0] && (a + b)[1..] == a[1..] + b;
    }
  }

  lemma SaysNext(c: char, rest: string)
    requires c != '\\'
    ensures Says(Escape(c) + rest) == [c] + Says(rest)
  {
    var s := Escape(c) + rest;
    if IsPlain(c) {
      assert s[0] == c && s[1..] == rest;
    } else {
      SpelledOut(c, rest);
      assert s[6..] == rest;
    }
  }

  lemma PairKeeps(a: char, b: char, rest: string)
    requires IsPlain(a) && IsPlain(b)
    ensures Escaped([a, b] + rest) == [a, b] + Escaped(rest)
  {
    EscapedConcat([a, b], rest);
    EscapedPlain([a, b]);
  }

  lemma PairIsKept(s: string)
    requires |s| > 1 && IsPlain(s[0]) && IsPlain(s[1])
    ensures Escaped(s) == s[..2] + Escaped(s[2..])
  {
    PairKeeps(s[0], s[1], s[2..]);
    assert s[..2] == [s[0], s[1]] && s == s[..2] + s[2..];
  }

  lemma PairSays(pair: string, rest: string)
    requires |pair| == 2 && pair[0] == '\\' && Spelled(pair + rest).None?
    ensures Says(pair + rest) == pair + Says(rest)
  {
    assert (pair + rest)[..2] == pair && (pair + rest)[2..] == rest;
  }

  lemma NoneIsSpelled(s: string)
    requires s != [] && s[0] == '\\' && Spelled(s).None?
    ensures Spelled(Escaped(s)).None?
  {
    if Spelled(Escaped(s)).Some? {
      SpelledBefore(s);
    }
  }

  lemma PairSaysTheSame(s: string, pair: string, rest: string)
    requires s == pair + rest && |pair| == 2 && pair[0] == '\\' && IsPlain(pair[1]) && Spelled(s).None?
    requires Says(Escaped(rest)) == Says(rest)
    ensures Says(Escaped(s)) == Says(s)
  {
    PairKeeps(pair[0], pair[1], rest);
    assert pair == [pair[0], pair[1]];
    NoneIsSpelled(s);
    PairSays(pair, Escaped(rest));
    PairSays(pair, rest);
  }

  lemma EscapedSpelledSays(s: string)
    requires Spelled(s).Some?
    ensures Says(Escaped(s)) == [Spelled(s).value] + Says(Escaped(s[6..]))
  {
    SpelledIsKept(s);
    assert Escaped(s)[6..] == Escaped(s[6..]);
  }

  /** Escaping changes nothing a value says. */
  lemma {:induction false} EscapedSaysTheSame(s: string)
    requires WellEscaped(s)
    ensures Says(Escaped(s)) == Says(s)
    decreases |s|
  {
    if s == [] {
    } else if s[0] != '\\' {
      EscapedSaysTheSame(s[1..]);
      SaysNext(s[0], Escaped(s[1..]));
    } else if Spelled(s).Some? {
      SpelledEnds(s);
      EscapedSaysTheSame(s[6..]);
      EscapedSpelledSays(s);
    } else {
      EscapedSaysTheSame(s[2..]);
      PairSaysTheSame(s, s[..2], s[2..]);
    }
  }

  lemma {:induction false} EscapedIsWell(s: string)
    requires WellEscaped(s)
    ensures WellEscaped(Escaped(s))
    decreases |s|
  {
    if s == [] {
    } else if s[0] != '\\' {
      EscapedIsWell(s[1..]);
      WellAfter(s[0], Escaped(s[1..]));
    } else {
      EscapedIsWell(s[2..]);
      PairIsKept(s);
      assert Escaped(s)[2..] == Escaped(s[2..]);
    }
  }

  lemma WellAfter(c: char, rest: string)
    requires c != '\\' && WellEscaped(rest)
    ensures WellEscaped(Escape(c) + rest)
  {
    var s := Escape(c) + rest;
    if IsPlain(c) {
      assert s[1..] == rest;
    } else {
      var r := Escape(c);
      assert s[2..] == r[2..] + rest && r[2..] == r[1..][1..];
      WellSkips(r[2..], rest);
    }
  }
}
