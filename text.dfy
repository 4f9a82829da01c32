/**
 * The string primitives the pipeline is built from, with Python's meaning:
 * `str.strip()`, ASCII `str.lower()`, the `in` substring test, `sep.join(xs)`,
 * `re.split(r'[.!?]+', s)`, `s[:n]` and `str(n)` for integers.
 */
module Text {

  /** Python's `str.isspace()`: the characters `strip()` removes and `\s` matches. */
  predicate IsSpace(c: char) {
    var n := c as int;
    n == 0x20 || (0x09 <= n <= 0x0d) || (0x1c <= n <= 0x1f) || n == 0x85 || n == 0xa0
    || n == 0x1680 || (0x2000 <= n <= 0x200a) || n == 0x2028 || n == 0x2029
    || n == 0x202f || n == 0x205f || n == 0x3000
  }

  /** `s.lstrip()` */
  function StripStart(s: string): (r: string)
    ensures |r| <= |s|
    ensures r == [] || !IsSpace(r[0])
    decreases |s|
  {
    if s != [] && IsSpace(s[0]) then StripStart(s[1..]) else s
  }

  /** `s.rstrip()` */
  function StripEnd(s: string): (r: string)
    ensures r <= s
    ensures r == [] || !IsSpace(r[|r| - 1])
    ensures r == [] ==> s == [] || IsSpace(s[0])
    decreases |s|
  {
    if s != [] && IsSpace(s[|s| - 1]) then StripEnd(s[..|s| - 1]) else s
  }

  /** A string with no whitespace at either end. */
  predicate IsStripped(s: string) {
    s == [] || (!IsSpace(s[0]) && !IsSpace(s[|s| - 1]))
  }

  /** `s.strip()`: the result is stripped, and it is empty exactly when every character of `s` is whitespace. */
  function Strip(s: string): (r: string)
    ensures IsStripped(r) && |r| <= |s|
  {
    var t := StripStart(s);
    var r := StripEnd(t);
    assert r != [] ==> r[0] == t[0];
    assert r == [] ==> t == [];
    r
  }

  /** `lstrip()` removes a run of whitespace from the start and keeps the rest. */
  lemma {:induction false} StripStartDrops(s: string)
    ensures StripStart(s) == s[|s| - |StripStart(s)|..]
    ensures forall i :: 0 <= i < |s| - |StripStart(s)| ==> IsSpace(s[i])
    decreases |s|
  {
    if s != [] && IsSpace(s[0]) {
      StripStartDrops(s[1..]);
      forall i | 1 <= i < |s| - |StripStart(s)| ensures IsSpace(s[i]) {
        assert s[i] == s[1..][i - 1];
      }
    }
  }

  /** `rstrip()` removes a run of whitespace from the end and keeps the rest. */
  lemma {:induction false} StripEndDrops(s: string)
    ensures forall i :: |StripEnd(s)| <= i < |s| ==> IsSpace(s[i])
    decreases |s|
  {
    if s != [] && IsSpace(s[|s| - 1]) {
      StripEndDrops(s[..|s| - 1]);
    }
  }

  /**
   * `s.strip()` is the slice of `s` left after removing whitespace from both ends, and it
   * starts and ends with a non-whitespace character: together, this pins the result down.
   */
  lemma StripSlice(s: string)
    ensures IsStripped(Strip(s))
    ensures exists i, j ::
              && 0 <= i <= j <= |s| && Strip(s) == s[i..j]
              && (forall k :: 0 <= k < i ==> IsSpace(s[k]))
              && (forall k :: j <= k < |s| ==> IsSpace(s[k]))
  {
    var t := StripStart(s);
    StripStartDrops(s);
    StripEndDrops(t);
    var i := |s| - |t|;
    var j := i + |Strip(s)|;
    assert Strip(s) == s[i..j];
    forall k | j <= k < |s| ensures IsSpace(s[k]) {
      assert s[k] == t[k - i];
    }
  }

  /** `s.strip()` is empty exactly when every character of `s` is whitespace. */
  lemma StripEmpty(s: string)
    ensures Strip(s) == [] <==> forall i :: 0 <= i < |s| ==> IsSpace(s[i])
  {
    var t := StripStart(s);
    StripStartDrops(s);
    StripEndDrops(t);
    if Strip(s) == [] {
      assert t == [];
    } else {
      assert !IsSpace(t[0]) && t[0] == s[|s| - |t|];
    }
  }

  /** A stripped string is left as it is by `strip()`. */
  lemma StripStripped(s: string)
    requires IsStripped(s)
    ensures Strip(s) == s
  {
  }

  /** `c.lower()` on ASCII letters; every other character is left as it is. */
  function LowerChar(c: char): char {
    if 'A' <= c <= 'Z' then (c as int + 32) as char else c
  }

  /** `s.lower()`, restricted to ASCII. */
  function Lower(s: string): (r: string)
    ensures |r| == |s|
    ensures forall i :: 0 <= i < |s| ==> r[i] == LowerChar(s[i])
  {
    seq(|s|, i requires 0 <= i < |s| => LowerChar(s[i]))
  }

  /** Python's `sub in s`. */
  predicate Contains(s: string, sub: string)
    decreases |s|
  {
    sub <= s || (s != [] && Contains(s[1..], sub))
  }

  /** `any(w in s for w in words)` */
  predicate ContainsAny(s: string, words: seq<string>) {
    exists k :: 0 <= k < |words| && Contains(s, words[k])
  }

  /** `sep.join(xs)` */
  function Join(xs: seq<string>, sep: string): string
    decreases |xs|
  {
    if |xs| == 0 then ""
    else if |xs| == 1 then xs[0]
    else Join(xs[..|xs| - 1], sep) + sep + xs[|xs| - 1]
  }

  lemma JoinAppend(xs: seq<string>, y: string, sep: string)
    requires xs != []
    ensures Join(xs + [y], sep) == Join(xs, sep) + sep + y
  {
    assert (xs + [y])[..|xs|] == xs;
  }

  /** Joining two non-empty lists is joining their joins. */
  lemma {:induction false} JoinConcat(a: seq<string>, b: seq<string>, sep: string)
    requires a != [] && b != []
    ensures Join(a + b, sep) == Join(a, sep) + sep + Join(b, sep)
    decreases |b|
  {
    if |b| == 1 {
      JoinAppend(a, b[0], sep);
    } else {
      var b' := b[..|b| - 1];
      var y := b[|b| - 1];
      assert b == b' + [y];
      assert a + b == (a + b') + [y];
      JoinAppend(a + b', y, sep);
      JoinConcat(a, b', sep);
      JoinAppend(b', y, sep);
    }
  }

  /** The sentence terminators of `re.split(r'[.!?]+', ...)`. */
  predicate IsTerminator(c: char) {
    c == '.' || c == '!' || c == '?'
  }

  /** Drops the run of terminators at the start of `s`. */
  function DropTerminators(s: string): (r: string)
    ensures |r| <= |s| && (s != [] && IsTerminator(s[0]) ==> |r| < |s|)
    ensures r == [] || !IsTerminator(r[0])
    decreases |s|
  {
    if s != [] && IsTerminator(s[0]) then DropTerminators(s[1..]) else s
  }

  /**
   * `re.split(r'[.!?]+', s)`: the pieces between maximal runs of terminators, including
   * the empty pieces before a leading run and after a trailing one. No piece holds a
   * terminator.
   */
  function Split(s: string): (r: seq<string>)
    ensures |r| >= 1
    decreases |s|
  {
    if s == [] then [""]
    else if IsTerminator(s[0]) then [""] + Split(DropTerminators(s))
    else
      var rest := Split(s[1..]);
      [[s[0]] + rest[0]] + rest[1..]
  }

  /** No piece of a split holds a terminator. */
  lemma {:induction false} SplitPiecesHaveNoTerminator(s: string)
    ensures forall k, j :: 0 <= k < |Split(s)| && 0 <= j < |Split(s)[k]| ==> !IsTerminator(Split(s)[k][j])
    decreases |s|
  {
    if s == [] {
    } else if IsTerminator(s[0]) {
      SplitPiecesHaveNoTerminator(DropTerminators(s));
      var rest := Split(DropTerminators(s));
      forall k, j | 1 <= k < |Split(s)| && 0 <= j < |Split(s)[k]| ensures !IsTerminator(Split(s)[k][j]) {
        assert Split(s)[k] == rest[k - 1];
      }
    } else {
      SplitPiecesHaveNoTerminator(s[1..]);
      var rest := Split(s[1..]);
      forall k, j | 0 <= k < |Split(s)| && 0 <= j < |Split(s)[k]| ensures !IsTerminator(Split(s)[k][j]) {
        if k == 0 {
          if j > 0 {
            assert Split(s)[0][j] == rest[0][j - 1];
          }
        } else {
          assert Split(s)[k] == rest[k];
        }
      }
    }
  }

  /** The run of terminators at the start of `s`: what `DropTerminators` removes. */
  function LeadingTerminators(s: string): (r: string)
    ensures forall j :: 0 <= j < |r| ==> IsTerminator(r[j])
    ensures s != [] && IsTerminator(s[0]) ==> r != []
    decreases |s|
  {
    if s != [] && IsTerminator(s[0]) then [s[0]] + LeadingTerminators(s[1..]) else []
  }

  /** A string is its leading terminators followed by the rest. */
  lemma {:induction false} LeadingTerminatorsThenRest(s: string)
    ensures s == LeadingTerminators(s) + DropTerminators(s)
    decreases |s|
  {
    if s != [] && IsTerminator(s[0]) {
      LeadingTerminatorsThenRest(s[1..]);
      assert s == [s[0]] + s[1..];
    }
  }

  /** The maximal runs of terminators in `s`, in order: what `re.split(r'[.!?]+', s)` cuts out. */
  function Separators(s: string): (r: seq<string>)
    decreases |s|
  {
    if s == [] then []
    else if IsTerminator(s[0]) then [LeadingTerminators(s)] + Separators(DropTerminators(s))
    else Separators(s[1..])
  }

  /** Every string is a non-empty run of terminators. */
  predicate AreRuns(seps: seq<string>) {
    forall k :: 0 <= k < |seps| ==> seps[k] != [] && forall j :: 0 <= j < |seps[k]| ==> IsTerminator(seps[k][j])
  }

  lemma RunsCons(x: string, seps: seq<string>)
    requires AreRuns([x]) && AreRuns(seps)
    ensures AreRuns([x] + seps)
  {
    assert forall k :: 1 <= k < |seps| + 1 ==> ([x] + seps)[k] == seps[k - 1];
  }

  /** Every separator is a non-empty run of terminators. */
  lemma {:induction false} SeparatorsAreRuns(s: string)
    ensures AreRuns(Separators(s))
    decreases |s|
  {
    if s == [] {
    } else if IsTerminator(s[0]) {
      SeparatorsAreRuns(DropTerminators(s));
      RunsCons(LeadingTerminators(s), Separators(DropTerminators(s)));
    } else {
      SeparatorsAreRuns(s[1..]);
    }
  }

  /** `pieces[0] + seps[0] + pieces[1] + ... + seps[n - 1] + pieces[n]` */
  function Interleave(pieces: seq<string>, seps: seq<string>): string
    requires |pieces| == |seps| + 1
  {
    pieces[0] + SeparatedTail(pieces[1..], seps)
  }

  /** `seps[0] + pieces[0] + ... + seps[n - 1] + pieces[n - 1]` */
  function SeparatedTail(pieces: seq<string>, seps: seq<string>): string
    requires |pieces| == |seps|
    decreases |seps|
  {
    if seps == [] then [] else seps[0] + pieces[0] + SeparatedTail(pieces[1..], seps[1..])
  }

  /** A character put in front of the first piece comes first in the interleaving. */
  lemma InterleaveCons(c: char, pieces: seq<string>, seps: seq<string>)
    requires |pieces| == |seps| + 1
    ensures Interleave([[c] + pieces[0]] + pieces[1..], seps) == [c] + Interleave(pieces, seps)
  {
    var ps := [[c] + pieces[0]] + pieces[1..];
    assert ps[0] == [c] + pieces[0] && ps[1..] == pieces[1..];
  }

  /** An empty first piece followed by a separator puts that separator first. */
  lemma InterleaveConsSeparator(pre: string, pieces: seq<string>, seps: seq<string>)
    requires |pieces| == |seps| + 1
    ensures Interleave([""] + pieces, [pre] + seps) == pre + Interleave(pieces, seps)
  {
    var ps := [""] + pieces;
    var ss := [pre] + seps;
    assert ps[0] == "" && ps[1..] == pieces;
    assert ss[0] == pre && ss[1..] == seps;
    assert Interleave(ps, ss) == "" + SeparatedTail(pieces, ss);
    assert SeparatedTail(pieces, ss) == pre + pieces[0] + SeparatedTail(pieces[1..], seps);
  }

  /** Every piece but the first and the last is non-empty. */
  predicate InnerNonEmpty(pieces: seq<string>) {
    forall k :: 0 < k < |pieces| - 1 ==> pieces[k] != []
  }

  lemma InnerNonEmptyCons(c: char, pieces: seq<string>)
    requires pieces != [] && InnerNonEmpty(pieces)
    ensures InnerNonEmpty([[c] + pieces[0]] + pieces[1..])
  {
    assert forall k :: 0 < k < |pieces| ==> ([[c] + pieces[0]] + pieces[1..])[k] == pieces[k];
  }

  lemma InnerNonEmptyConsEmpty(pieces: seq<string>)
    requires InnerNonEmpty(pieces) && (|pieces| >= 2 ==> pieces[0] != [])
    ensures InnerNonEmpty([""] + pieces)
  {
    assert forall k :: 0 < k < |pieces| + 1 ==> ([""] + pieces)[k] == pieces[k - 1];
  }

  /**
   * `re.split(r'[.!?]+', s)` cuts `s` at its maximal terminator runs: the pieces with the runs
   * put back between them give `s` again, there is one piece more than there are runs, and
   * only the first and the last piece can be empty. With `SplitPiecesHaveNoTerminator` and
   * `SeparatorsAreRuns` this determines the pieces.
   */
  lemma {:induction false} SplitReassembles(s: string)
    ensures |Split(s)| == |Separators(s)| + 1
    ensures Interleave(Split(s), Separators(s)) == s
    ensures InnerNonEmpty(Split(s))
    decreases |s|
  {
    if s == [] {
    } else if IsTerminator(s[0]) {
      var d := DropTerminators(s);
      SplitReassembles(d);
      InterleaveConsSeparator(LeadingTerminators(s), Split(d), Separators(d));
      LeadingTerminatorsThenRest(s);
      assert |Split(d)| >= 2 ==> d != [] && Split(d)[0] != [];
      InnerNonEmptyConsEmpty(Split(d));
    } else {
      var rest := Split(s[1..]);
      SplitReassembles(s[1..]);
      InterleaveCons(s[0], rest, Separators(s[1..]));
      InnerNonEmptyCons(s[0], rest);
      assert s == [s[0]] + s[1..];
    }
  }

  /** `[s.strip() for s in xs]` */
  function StripAll(xs: seq<string>): (r: seq<string>)
    ensures |r| == |xs| && forall k :: 0 <= k < |xs| ==> r[k] == Strip(xs[k])
  {
    seq(|xs|, k requires 0 <= k < |xs| => Strip(xs[k]))
  }

  /** Stripping a list with one more string appends that string, stripped. */
  lemma StripAllAppend(xs: seq<string>, x: string)
    ensures StripAll(xs + [x]) == StripAll(xs) + [Strip(x)]
  {
    var l := StripAll(xs + [x]);
    var r := StripAll(xs) + [Strip(x)];
    assert |l| == |r|;
    forall k | 0 <= k < |l| ensures l[k] == r[k] {
      if k < |xs| {
        assert (xs + [x])[k] == xs[k];
      }
    }
  }

  /** `s[:n]` for `n >= 0`. */
  function Prefix(s: string, n: nat): (r: string)
    ensures r <= s && |r| == if |s| <= n then |s| else n
  {
    if |s| <= n then s else s[..n]
  }

  predicate IsDigit(c: char) {
    '0' <= c <= '9'
  }

  function DigitChar(d: nat): (c: char)
    requires d < 10
    ensures IsDigit(c) && c as int - '0' as int == d
  {
    ('0' as int + d) as char
  }

  /** `str(n)` for a natural number: its decimal digits. */
  function NatToString(n: nat): (s: string)
    ensures |s| >= 1 && forall i :: 0 <= i < |s| ==> IsDigit(s[i])
    decreases n
  {
    if n < 10 then [DigitChar(n)] else NatToString(n / 10) + [DigitChar(n % 10)]
  }

  /** `str(i)` for an integer: a minus sign before the digits of a negative number. */
  function IntToString(i: int): (s: string)
    ensures |s| >= 1 && forall k :: 0 <= k < |s| ==> IsDigit(s[k]) || (k == 0 && s[k] == '-')
  {
    if i < 0 then "-" + NatToString(-i) else NatToString(i)
  }

  /** `int(s)` on a string of digits, the inverse of NatToString. */
  function ParseNat(s: string): nat
    requires forall i :: 0 <= i < |s| ==> IsDigit(s[i])
    decreases |s|
  {
    if s == [] then 0
    else
      assert IsDigit(s[|s| - 1]);
      ParseNat(s[..|s| - 1]) * 10 + (s[|s| - 1] as int - '0' as int)
  }

  lemma {:induction false} ParseNatToString(n: nat)
    ensures ParseNat(NatToString(n)) == n
    decreases n
  {
    if n >= 10 {
      var s := NatToString(n);
      assert s[..|s| - 1] == NatToString(n / 10);
      ParseNatToString(n / 10);
    }
  }

  /** Different numbers print differently. */
  lemma NatToStringInjective(a: nat, b: nat)
    requires NatToString(a) == NatToString(b)
    ensures a == b
  {
    ParseNatToString(a);
    ParseNatToString(b);
  }

  lemma IntToStringInjective(a: int, b: int)
    requires IntToString(a) == IntToString(b)
    ensures a == b
  {
    var s := IntToString(a);
    assert (s[0] == '-') == (a < 0) == (b < 0) by {
      assert IsDigit(NatToString(if a < 0 then -a else a)[0]);
      assert IsDigit(NatToString(if b < 0 then -b else b)[0]);
    }
    if a < 0 {
      assert NatToString(-a) == s[1..] == NatToString(-b);
      NatToStringInjective(-a, -b);
    } else {
      NatToStringInjective(a, b);
    }
  }
}
