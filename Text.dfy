/** Character-level helpers shared by the record writer and the record reader:
    C's `isspace`, the tokens `sscanf("%s")` sees, the lines `getline` returns,
    and the decimal text that `fprintf("%d")` prints. */
module Text {

  /** `isspace` in the "C" locale: space, \t, \n, \v, \f, \r. */
  predicate IsSpace(c: char) {
    c == ' ' || ('\t' <= c && c <= '\r')
  }

  /** A token as `%s` reads it: non-empty and free of whitespace. */
  predicate IsWord(s: string) {
    |s| > 0 && forall i :: 0 <= i < |s| ==> !IsSpace(s[i])
  }

  /** Length of the longest whitespace-free prefix of `s`. */
  function WordEnd(s: string): (k: nat)
    ensures k <= |s|
    ensures forall i :: 0 <= i < k ==> !IsSpace(s[i])
    ensures k < |s| ==> IsSpace(s[k])
  {
    if s == [] || IsSpace(s[0]) then 0 else 1 + WordEnd(s[1..])
  }

  /** The whitespace-delimited tokens of `s`, in order. */
  function Tokens(s: string): (r: seq<string>)
    ensures forall t :: t in r ==> IsWord(t)
    decreases |s|
  {
    if s == [] then []
    else if IsSpace(s[0]) then Tokens(s[1..])
    else
      var k := WordEnd(s);
      assert k > 0;
      [s[..k]] + Tokens(s[k..])
  }

  /** `sscanf(line, "%*s %*s %s", target)`: the third token of `line`; when the
      line has fewer than three tokens the conversion fails and `target` keeps
      its `prior` contents. */
  function ScanThird(line: string, prior: string): (r: string)
    ensures |Tokens(line)| < 3 ==> r == prior
    ensures |Tokens(line)| >= 3 ==> IsWord(r) && r in Tokens(line)
  {
    var ts := Tokens(line);
    if |ts| >= 3 then ts[2] else prior
  }

  /** A line as `fprintf(fp, "%s %s %s\n", a, b, c)` writes it. */
  function Line3(a: string, b: string, c: string): string {
    a + ([' '] + (b + ([' '] + (c + ['\n']))))
  }

  /** Length of the first line `getline` returns from `s`: up to and including
      the first '\n', or all of `s` when it holds no '\n'. */
  function LineEnd(s: string): (k: nat)
    ensures k <= |s|
    ensures s != [] ==> k > 0
    ensures forall i :: 0 <= i < k - 1 ==> s[i] != '\n'
    ensures 0 < k < |s| ==> s[k - 1] == '\n'
  {
    if s == [] then 0 else if s[0] == '\n' then 1 else 1 + LineEnd(s[1..])
  }

  /** The successive results of `getline` on a stream holding `s`: together
      they are exactly `s` (`LinesShape` says how they are cut). */
  function Lines(s: string): (ls: seq<string>)
    ensures Concat(ls) == s
    decreases |s|
  {
    if s == [] then [] else
      var k := LineEnd(s);
      assert s[..k] + s[k..] == s;
      [s[..k]] + Lines(s[k..])
  }

  /** No result of `getline` is empty, and each but the last is a complete
      line ending in its only newline (LastLineShape covers the last). */
  lemma {:induction false} LinesShape(s: string)
    ensures forall i :: 0 <= i < |Lines(s)| ==> |Lines(s)[i]| > 0
    ensures forall i :: 0 <= i < |Lines(s)| - 1 ==> IsLine(Lines(s)[i])
    decreases |s|
  {
    if s != [] {
      var k := LineEnd(s);
      var ls, lr := Lines(s), Lines(s[k..]);
      LinesShape(s[k..]);
      assert ls == [s[..k]] + lr;
      forall i | 0 <= i < |ls| ensures |ls[i]| > 0 {
        if i > 0 {
          assert ls[i] == lr[i - 1];
        }
      }
      forall i | 0 <= i < |ls| - 1 ensures IsLine(ls[i]) {
        if i > 0 {
          assert ls[i] == lr[i - 1];
        } else {
          assert lr != [] && k < |s|;
        }
      }
    }
  }

  /** No '\n' before the final character. */
  predicate NoInnerNewline(l: string) {
    forall i :: 0 <= i < |l| - 1 ==> l[i] != '\n'
  }

  /** The last result of `getline` holds no newline before its final
      character. */
  lemma {:induction false} LastLineShape(s: string)
    ensures Lines(s) != [] ==> NoInnerNewline(Lines(s)[|Lines(s)| - 1])
    decreases |s|
  {
    if s != [] {
      var k := LineEnd(s);
      var ls, lr := Lines(s), Lines(s[k..]);
      assert ls == [s[..k]] + lr;
      if lr != [] {
        LastLineShape(s[k..]);
        assert ls[|ls| - 1] == lr[|lr| - 1];
      } else {
        assert ls[|ls| - 1] == s[..k];
        forall i | 0 <= i < k - 1 ensures s[..k][i] != '\n' {
          assert s[..k][i] == s[i];
        }
      }
    }
  }

  /** A complete line: it ends with its only '\n'. */
  predicate IsLine(l: string) {
    |l| > 0 && l[|l| - 1] == '\n' && forall i :: 0 <= i < |l| - 1 ==> l[i] != '\n'
  }

  /** The text of a file written line after line. */
  function Concat(ls: seq<string>): string {
    if ls == [] then "" else ls[0] + Concat(ls[1..])
  }

  lemma AppendAssoc<T>(a: seq<T>, b: seq<T>, c: seq<T>)
    ensures (a + b) + c == a + (b + c)
  {
  }

  /** Writing `a` and then `b` gives the text of `a` followed by that of `b`. */
  lemma {:induction false} ConcatAppend(a: seq<string>, b: seq<string>)
    ensures Concat(a + b) == Concat(a) + Concat(b)
    decreases |a|
  {
    if a == [] {
      assert a + b == b;
    } else {
      assert (a + b)[0] == a[0] && (a + b)[1..] == a[1..] + b;
      ConcatAppend(a[1..], b);
      assert a[0] + (Concat(a[1..]) + Concat(b)) == (a[0] + Concat(a[1..])) + Concat(b);
    }
  }

  /** The digit character for `d < 10`. */
  function Digit(d: nat): (c: char)
    requires d < 10
    ensures '0' <= c <= '9' && c as int - '0' as int == d
  {
    ('0' as int + d) as char
  }

  /** The value `atoi` reads from a word of decimal digits. */
  function DigitsValue(s: string): nat
    requires forall i :: 0 <= i < |s| ==> '0' <= s[i] <= '9'
  {
    if s == [] then 0 else 10 * DigitsValue(s[..|s| - 1]) + (s[|s| - 1] as int - '0' as int)
  }

  /** The decimal text `printf("%d", n)` gives for `n >= 0`. */
  function NatToString(n: nat): (s: string)
    ensures IsWord(s)
    ensures forall i :: 0 <= i < |s| ==> '0' <= s[i] <= '9'
  {
    if n < 10 then [Digit(n)] else NatToString(n / 10) + [Digit(n % 10)]
  }

  /** The digits `%d` prints read back as `n`; so different numbers are
      printed differently. */
  lemma {:induction false} NatToStringReadsBack(n: nat)
    ensures DigitsValue(NatToString(n)) == n
  {
    if n >= 10 {
      var s := NatToString(n);
      assert s[..|s| - 1] == NatToString(n / 10);
      NatToStringReadsBack(n / 10);
    } else {
      assert NatToString(n)[..0] == [];
    }
  }

  lemma NatToStringInjective(m: nat, n: nat)
    requires NatToString(m) == NatToString(n)
    ensures m == n
  {
    NatToStringReadsBack(m);
    NatToStringReadsBack(n);
  }

  /** A word that starts the text, followed by whitespace or by nothing, is its
      first token. */
  lemma TokensOfWordThen(w: string, rest: string)
    requires IsWord(w)
    requires rest == [] || IsSpace(rest[0])
    ensures Tokens(w + rest) == [w] + Tokens(rest)
  {
    var s := w + rest;
    var k := WordEnd(s);
    assert forall i :: 0 <= i < |w| ==> s[i] == w[i];
    assert |w| < |s| ==> s[|w|] == rest[0];
    assert k == |w|;
    assert s[..k] == w;
    assert s[k..] == rest;
  }

  /** Leading whitespace yields no token. */
  lemma TokensOfSpaceThen(c: char, rest: string)
    requires IsSpace(c)
    ensures Tokens([c] + rest) == Tokens(rest)
  {
    assert ([c] + rest)[1..] == rest;
  }

  /** A run of whitespace, possibly empty. */
  predicate AllSpace(s: string) {
    forall i :: 0 <= i < |s| ==> IsSpace(s[i])
  }

  /** A run of whitespace yields no token. */
  lemma {:induction false} TokensOfSpaces(sp: string, rest: string)
    requires AllSpace(sp)
    ensures Tokens(sp + rest) == Tokens(rest)
    decreases |sp|
  {
    if sp != [] {
      assert sp + rest == [sp[0]] + (sp[1..] + rest);
      TokensOfSpaceThen(sp[0], sp[1..] + rest);
      TokensOfSpaces(sp[1..], rest);
    } else {
      assert sp + rest == rest;
    }
  }

  /** A word followed by a non-empty run of whitespace is one token. */
  lemma TokensOfWordSpaces(w: string, sp: string, rest: string)
    requires IsWord(w)
    requires |sp| > 0 && AllSpace(sp)
    ensures Tokens(w + (sp + rest)) == [w] + Tokens(rest)
  {
    assert (sp + rest)[0] == sp[0];
    TokensOfWordThen(w, sp + rest);
    TokensOfSpaces(sp, rest);
  }

  /** `%*s %*s %s` stores the third word of a line: whatever whitespace
      precedes and separates the words, and whatever follows the third word
      after whitespace, the first three tokens are `a`, `b`, `c`. */
  lemma ScanThirdOfLine(s0: string, a: string, s1: string, b: string, s2: string, c: string, rest: string, prior: string)
    requires IsWord(a) && IsWord(b) && IsWord(c)
    requires AllSpace(s0) && |s1| > 0 && AllSpace(s1) && |s2| > 0 && AllSpace(s2)
    requires rest == [] || IsSpace(rest[0])
    ensures var line := s0 + (a + (s1 + (b + (s2 + (c + rest)))));
      Tokens(line) == [a, b, c] + Tokens(rest) && ScanThird(line, prior) == c
  {
    var t2 := c + rest;
    var t1 := b + (s2 + t2);
    var t0 := a + (s1 + t1);
    var line := s0 + t0;
    assert Tokens(t2) == [c] + Tokens(rest) by {
      TokensOfWordThen(c, rest);
    }
    assert Tokens(t1) == [b] + Tokens(t2) by {
      TokensOfWordSpaces(b, s2, t2);
    }
    assert Tokens(t0) == [a] + Tokens(t1) by {
      TokensOfWordSpaces(a, s1, t1);
    }
    assert Tokens(line) == Tokens(t0) by {
      TokensOfSpaces(s0, t0);
    }
    ThreeHeads(Tokens(line), Tokens(t0), Tokens(t1), Tokens(t2), Tokens(rest), a, b, c);
  }

  /** Chaining the token equations of ScanThirdOfLine. */
  lemma ThreeHeads<T>(l: seq<T>, l0: seq<T>, l1: seq<T>, l2: seq<T>, r: seq<T>, a: T, b: T, c: T)
    requires l == l0 && l0 == [a] + l1 && l1 == [b] + l2 && l2 == [c] + r
    ensures l == [a, b, c] + r && |l| >= 3 && l[2] == c
  {
    assert [a] + ([b] + ([c] + r)) == [a, b, c] + r;
  }

  /** A line of three words separated by single spaces has exactly those three
      tokens; `%*s %*s %s` therefore reads the third one. */
  lemma Line3Tokens(a: string, b: string, c: string)
    requires IsWord(a) && IsWord(b) && IsWord(c)
    ensures Tokens(Line3(a, b, c)) == [a, b, c]
    ensures ScanThird(Line3(a, b, c), "") == c
  {
    var nl: string := ['\n'];
    assert Tokens(nl) == [] by {
      TokensOfSpaceThen('\n', []);
      assert nl == ['\n'] + [];
    }
    var t3 := c + nl;
    TokensOfWordThen(c, nl);
    assert Tokens(t3) == [c];
    var t2 := [' '] + t3;
    TokensOfSpaceThen(' ', t3);
    var t1 := b + t2;
    TokensOfWordThen(b, t2);
    assert Tokens(t1) == [b, c];
    var t0 := [' '] + t1;
    TokensOfSpaceThen(' ', t1);
    TokensOfWordThen(a, t0);
    assert Line3(a, b, c) == a + t0;
  }

  /** A line of three words is a complete line. */
  lemma Line3IsLine(a: string, b: string, c: string)
    requires IsWord(a) && IsWord(b) && IsWord(c)
    ensures IsLine(Line3(a, b, c))
  {
    var l := Line3(a, b, c);
    forall i | 0 <= i < |l| - 1 ensures l[i] != '\n' {
      if i < |a| {
        assert l[i] == a[i];
      } else if |a| < i < |a| + 1 + |b| {
        assert l[i] == b[i - |a| - 1];
      } else if |a| + 1 + |b| < i < |a| + 2 + |b| + |c| {
        assert l[i] == c[i - |a| - 2 - |b|];
      }
    }
  }

  /** `getline` splits the text of a file written as complete lines back into
      exactly those lines. */
  lemma {:induction false} LinesOfConcat(ls: seq<string>)
    requires forall i :: 0 <= i < |ls| ==> IsLine(ls[i])
    ensures Lines(Concat(ls)) == ls
  {
    if ls != [] {
      var l, rest := ls[0], Concat(ls[1..]);
      var s := l + rest;
      assert IsLine(l);
      var k := LineEnd(s);
      assert forall i :: 0 <= i < |l| ==> s[i] == l[i];
      assert k == |l|;
      assert s[..k] == l;
      assert s[k..] == rest;
      LinesOfConcat(ls[1..]);
    }
  }
}
