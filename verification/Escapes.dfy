/** The escape sequences an activity line loses, form by form (internal/tmux/report.go). */
module Escapes {
  import opened Prelude
  import opened Text
  import opened ReportCodec

  /** ESC [, then parameters up to i, then intermediates, then a final byte: n characters. */
  predicate Csi(s: string, i: nat, n: nat) {
    && 2 <= i < n <= |s| && s[0] == '\U{1B}' && s[1] == '['
    && (forall k | 2 <= k < i :: '0' <= s[k] <= '9' || s[k] == ';' || s[k] == '?')
    && (forall k | i <= k < n - 1 :: 0x20 <= s[k] as int <= 0x2f)
    && 0x40 <= s[n - 1] as int <= 0x7e
  }

  /** ESC ], then anything but BEL and ESC, then BEL or ESC \: n characters. */
  predicate Osc(s: string, n: nat) {
    && 3 <= n <= |s| && s[0] == '\U{1B}' && s[1] == ']'
    && ((s[n - 1] == '\U{07}' && forall k | 2 <= k < n - 1 :: s[k] != '\U{07}' && s[k] != '\U{1B}')
        || (n > 3 && s[n - 2] == '\U{1B}' && s[n - 1] == '\\'
            && forall k | 2 <= k < n - 2 :: s[k] != '\U{07}' && s[k] != '\U{1B}'))
  }

  /** ESC and one of @ to Z or \ to _. */
  predicate Fe(s: string) {
    && |s| >= 2 && s[0] == '\U{1B}'
    && (0x40 <= s[1] as int <= 0x5a || 0x5c <= s[1] as int <= 0x5f)
  }

  lemma {:induction false} SkipIs(s: string, from: nat, p: char -> bool, to: nat)
    requires from <= to <= |s| && (forall k | from <= k < to :: p(s[k])) && (to < |s| ==> !p(s[to]))
    ensures SkipWhile(s, from, p) == to
    decreases |s| - from
  {
    if from < to {
      SkipIs(s, from + 1, p, to);
    }
  }

  lemma {:induction false} SkipEnds(s: string, from: nat, p: char -> bool)
    requires from <= |s|
    ensures var to := SkipWhile(s, from, p);
      (forall k | from <= k < to :: p(s[k])) && (to < |s| ==> !p(s[to]))
    decreases |s| - from
  {
    if from < |s| && p(s[from]) {
      SkipEnds(s, from + 1, p);
    }
  }

  lemma CsiIsWhole(s: string, i: nat, n: nat)
    requires Csi(s, i, n)
    ensures EscapeLength(s) == n
  {
    SkipIs(s, 2, c => IsDigit(c) || c == ';' || c == '?', i);
    SkipIs(s, i, c => ' ' <= c <= '/', n - 1);
  }

  lemma OscIsWhole(s: string, n: nat)
    requires Osc(s, n)
    ensures EscapeLength(s) == n
  {
    SkipIs(s, 2, c => c != BEL && c != ESC, if s[n - 1] == '\U{07}' then n - 1 else n - 2);
  }

  lemma BracketIsCsi(s: string)
    requires |s| >= 2 && s[0] == '\U{1B}' && s[1] == '[' && EscapeLength(s) > 0
    ensures exists i: nat :: Csi(s, i, EscapeLength(s))
  {
    var i := SkipWhile(s, 2, c => IsDigit(c) || c == ';' || c == '?');
    SkipEnds(s, 2, c => IsDigit(c) || c == ';' || c == '?');
    SkipEnds(s, i, c => ' ' <= c <= '/');
    assert Csi(s, i, EscapeLength(s));
  }

  lemma OthersAre(s: string)
    requires |s| >= 2 && s[0] == '\U{1B}' && s[1] != '['
    ensures EscapeLength(s) > 0 ==> Osc(s, EscapeLength(s)) || (Fe(s) && EscapeLength(s) == 2)
    ensures Fe(s) ==> EscapeLength(s) > 0
  {
    SkipEnds(s, 2, c => c != BEL && c != ESC);
  }

  ghost predicate SomeCsi(s: string, n: nat) {
    exists i: nat :: Csi(s, i, n)
  }

  /** The sequence at the front of a text, if one is there: a whole CSI sequence, a whole
      OSC string, or, where no OSC string ends, one of the two-character forms. */
  lemma EscapeIs(s: string, n: nat)
    requires n > 0
    ensures EscapeLength(s) == n
      <==> SomeCsi(s, n) || Osc(s, n) || (n == 2 && Fe(s) && forall k: nat :: !Osc(s, k))
  {
    if i: nat :| Csi(s, i, n) {
      CsiIsWhole(s, i, n);
    }
    if Osc(s, n) {
      OscIsWhole(s, n);
    }
    if EscapeLength(s) == n {
      if s[1] == '[' {
        BracketIsCsi(s);
      } else {
        OthersAre(s);
      }
      if k: nat :| Osc(s, k) {
        OscIsWhole(s, k);
      }
    } else if n == 2 && Fe(s) && forall k: nat :: !Osc(s, k) {
      OthersAre(s);
    }
  }

  /** Stripping takes such a sequence off whole, and nothing else. */
  lemma SequenceGoes(s: string, n: nat)
    requires n > 0 && (SomeCsi(s, n) || Osc(s, n) || (n == 2 && Fe(s) && forall k: nat :: !Osc(s, k)))
    ensures n <= |s| && StripEscapes(s) == StripEscapes(s[n..])
  {
    EscapeIs(s, n);
  }

  lemma OtherTextStays(s: string)
    requires s != [] && forall n: nat :: !SomeCsi(s, n) && !Osc(s, n)
    requires !Fe(s)
    ensures StripEscapes(s) == [s[0]] + StripEscapes(s[1..])
  {
    if EscapeLength(s) > 0 {
      EscapeIs(s, EscapeLength(s));
    }
  }
}
