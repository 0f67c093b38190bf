/**
 * Character and string helpers shared by the serialisers and registries:
 * the C locale's whitespace and lower-casing (boost::algorithm::trim and
 * to_lower), single-character replace_all, first-occurrence search, the
 * decimal rendering of integers (ostream << int) and the space tokenizer.
 * It also holds the value model of a text output stream: a sequence of
 * lines, each an indentation (tab count) and a list of tokens.
 */
module Text {

  import opened Wrappers

  /** std::isspace in the C locale. */
  predicate IsSpace(c: char) {
    c == ' ' || c == '\t' || c == '\n' || c == '\U{000B}' || c == '\U{000C}' || c == '\r'
  }

  /** std::tolower in the C locale: only 'A'..'Z' change. */
  function Lower(c: char): (r: char)
    ensures 'A' <= c <= 'Z' ==> 'a' <= r <= 'z'
    ensures !('A' <= c <= 'Z') ==> r == c
  {
    if 'A' <= c <= 'Z' then (c as int - 'A' as int + 'a' as int) as char else c
  }

  function ToLower(s: string): (r: string)
    ensures |r| == |s|
    ensures forall i :: 0 <= i < |s| ==> r[i] == Lower(s[i])
  {
    if s == [] then [] else [Lower(s[0])] + ToLower(s[1..])
  }

  lemma {:induction false} ToLowerIdempotent(s: string)
    ensures ToLower(ToLower(s)) == ToLower(s)
  {
    var once := ToLower(s);
    var twice := ToLower(once);
    forall i | 0 <= i < |s| ensures twice[i] == once[i] { }
  }

  lemma {:induction false} ToLowerAppend(a: string, b: string)
    ensures ToLower(a + b) == ToLower(a) + ToLower(b)
  {
    var l, r := ToLower(a + b), ToLower(a) + ToLower(b);
    forall i | 0 <= i < |a + b| ensures l[i] == r[i] {
      if i < |a| { assert (a + b)[i] == a[i]; } else { assert (a + b)[i] == b[i - |a|]; }
    }
  }

  /** boost::algorithm::trim_left: drops leading whitespace. */
  function TrimLeft(s: string): (r: string)
    ensures |r| <= |s|
    ensures r != [] ==> !IsSpace(r[0])
  {
    if s != [] && IsSpace(s[0]) then TrimLeft(s[1..]) else s
  }

  /** TrimLeft keeps a suffix and drops only whitespace. */
  lemma {:induction false} TrimLeftSuffix(s: string)
    ensures TrimLeft(s) == s[|s| - |TrimLeft(s)|..]
    ensures forall i :: 0 <= i < |s| - |TrimLeft(s)| ==> IsSpace(s[i])
  {
    if s != [] && IsSpace(s[0]) {
      TrimLeftSuffix(s[1..]);
      forall i | 1 <= i < |s| - |TrimLeft(s)| ensures IsSpace(s[i]) {
        assert s[i] == s[1..][i - 1];
      }
    }
  }

  /** boost::algorithm::trim_right: drops trailing whitespace. */
  function TrimRight(s: string): (r: string)
    ensures |r| <= |s|
    ensures r != [] ==> !IsSpace(r[|r| - 1])
  {
    if s != [] && IsSpace(s[|s| - 1]) then TrimRight(s[..|s| - 1]) else s
  }

  /** TrimRight keeps a prefix and drops only whitespace. */
  lemma {:induction false} TrimRightPrefix(s: string)
    ensures TrimRight(s) == s[..|TrimRight(s)|]
    ensures forall i :: |TrimRight(s)| <= i < |s| ==> IsSpace(s[i])
  {
    if s != [] && IsSpace(s[|s| - 1]) {
      TrimRightPrefix(s[..|s| - 1]);
      forall i | |TrimRight(s)| <= i < |s| - 1 ensures IsSpace(s[i]) {
        assert s[i] == s[..|s| - 1][i];
      }
    }
  }

  /** Leading whitespace is only dropped up to the first non-space character. */
  lemma {:induction false} TrimLeftAppend(a: string, b: string)
    requires b != [] && !IsSpace(b[0])
    ensures TrimLeft(a + b) == TrimLeft(a) + b
  {
    if a == [] {
      assert a + b == b;
    } else if IsSpace(a[0]) {
      assert (a + b)[1..] == a[1..] + b;
      TrimLeftAppend(a[1..], b);
    } else {
      assert (a + b)[0] == a[0];
    }
  }

  /** boost::algorithm::trim (and trim_copy). */
  function Trim(s: string): (r: string)
  {
    TrimLeft(TrimRight(s))
  }

  /** What Trim keeps is a slice of the input with no whitespace at either end, and only whitespace is dropped. */
  lemma TrimSlice(s: string) returns (lo: nat, hi: nat)
    ensures lo <= hi <= |s| && Trim(s) == s[lo..hi]
    ensures forall i :: 0 <= i < lo ==> IsSpace(s[i])
    ensures forall i :: hi <= i < |s| ==> IsSpace(s[i])
    ensures Trim(s) != [] ==> !IsSpace(Trim(s)[0]) && !IsSpace(Trim(s)[|Trim(s)| - 1])
  {
    var t := TrimRight(s);
    var r := TrimLeft(t);
    TrimRightPrefix(s);
    TrimLeftSuffix(t);
    lo, hi := |t| - |r|, |t|;
    assert t == s[..hi];
    assert r == t[lo..];
    assert r == s[lo..hi];
    forall i | 0 <= i < lo ensures IsSpace(s[i]) {
      assert s[i] == t[i];
    }
    if r != [] {
      assert r[|r| - 1] == t[|t| - 1];
    }
  }

  lemma {:induction false} TrimIdempotent(s: string)
    ensures Trim(Trim(s)) == Trim(s)
  {
    var r := Trim(s);
    var lo, hi := TrimSlice(s);
    if r != [] {
      assert TrimRight(r) == r;
      assert TrimLeft(r) == r;
    }
  }

  /** Index of the first occurrence of c (std::string::find_first_of with one character). */
  function FindFirst(s: string, c: char): (r: Option<nat>)
    ensures r.None? <==> c !in s
    ensures r.Some? ==> r.value < |s| && s[r.value] == c && c !in s[..r.value]
  {
    if s == [] then None
    else if s[0] == c then Some(0)
    else match FindFirst(s[1..], c)
      case None => None
      case Some(k) => assert s[1..][..k] == s[1..k + 1]; Some(k + 1)
  }

  /** boost::algorithm::replace_all for a one-character search string: every c becomes rep. */
  function ReplaceChar(s: string, c: char, rep: string): string {
    if s == [] then []
    else (if s[0] == c then rep else [s[0]]) + ReplaceChar(s[1..], c, rep)
  }

  /** replace_all leaves a string without the searched character unchanged. */
  lemma {:induction false} ReplaceCharAbsent(s: string, c: char, rep: string)
    requires c !in s
    ensures ReplaceChar(s, c, rep) == s
  {
    if s != [] {
      assert s == [s[0]] + s[1..];
      ReplaceCharAbsent(s[1..], c, rep);
    }
  }

  lemma {:induction false} ReplaceCharAppend(a: string, b: string, c: char, rep: string)
    ensures ReplaceChar(a + b, c, rep) == ReplaceChar(a, c, rep) + ReplaceChar(b, c, rep)
  {
    if a == [] {
      assert a + b == b;
    } else {
      var h := if a[0] == c then rep else [a[0]];
      assert (a + b)[0] == a[0];
      assert (a + b)[1..] == a[1..] + b;
      calc {
        ReplaceChar(a + b, c, rep);
        h + ReplaceChar(a[1..] + b, c, rep);
        { ReplaceCharAppend(a[1..], b, c, rep); }
        h + (ReplaceChar(a[1..], c, rep) + ReplaceChar(b, c, rep));
        (h + ReplaceChar(a[1..], c, rep)) + ReplaceChar(b, c, rep);
      }
    }
  }

  /** boost::algorithm::replace_all(s, [c], "") : removes every c. */
  function RemoveChar(s: string, c: char): (r: string)
    ensures c !in r
    ensures |r| <= |s|
    ensures forall x :: x != c ==> (x in r <==> x in s)
  {
    if s == [] then []
    else (if s[0] == c then [] else [s[0]]) + RemoveChar(s[1..], c)
  }

  /** A single character is dropped when it is c and kept otherwise. */
  lemma RemoveCharUnit(x: char, c: char)
    ensures RemoveChar([x], c) == if x == c then [] else [x]
  {
    assert [x][1..] == [];
  }

  /** Removal distributes over concatenation, so with RemoveCharUnit it keeps the order and number of the other characters. */
  lemma {:induction false} RemoveCharAppend(a: string, b: string, c: char)
    ensures RemoveChar(a + b, c) == RemoveChar(a, c) + RemoveChar(b, c)
  {
    if a == [] {
      assert a + b == b;
    } else {
      var h := if a[0] == c then [] else [a[0]];
      assert (a + b)[0] == a[0];
      assert (a + b)[1..] == a[1..] + b;
      calc {
        RemoveChar(a + b, c);
        h + RemoveChar(a[1..] + b, c);
        { RemoveCharAppend(a[1..], b, c); }
        h + (RemoveChar(a[1..], c) + RemoveChar(b, c));
        (h + RemoveChar(a[1..], c)) + RemoveChar(b, c);
      }
    }
  }

  /** A string without c is left as it is. */
  lemma {:induction false} RemoveCharAbsent(s: string, c: char)
    requires c !in s
    ensures RemoveChar(s, c) == s
  {
    if s != [] {
      assert s == [s[0]] + s[1..];
      RemoveCharAbsent(s[1..], c);
    }
  }

  // ---------------------------------------------------------------------------
  // Decimal rendering of integers (the `os << int` of the format writers and of
  // the "<stem>_<id>" material names), with its inverse.

  function Digit(d: nat): (c: char)
    requires d < 10
    ensures '0' <= c <= '9'
  {
    ('0' as int + d) as char
  }

  function DigitValue(c: char): nat
  {
    if '0' <= c <= '9' then c as int - '0' as int else 0
  }

  function NatToString(n: nat): (r: string)
    ensures |r| >= 1
    ensures forall i :: 0 <= i < |r| ==> '0' <= r[i] <= '9'
  {
    if n < 10 then [Digit(n)] else NatToString(n / 10) + [Digit(n % 10)]
  }

  function IntToString(i: int): (r: string)
    ensures |r| >= 1
  {
    if i < 0 then "-" + NatToString(-i) else NatToString(i)
  }

  function ParseDigits(s: string): nat
  {
    if s == [] then 0 else 10 * ParseDigits(s[..|s| - 1]) + DigitValue(s[|s| - 1])
  }

  lemma {:induction false} ParseNatToString(n: nat)
    ensures ParseDigits(NatToString(n)) == n
  {
    var s := NatToString(n);
    if n >= 10 {
      assert s[..|s| - 1] == NatToString(n / 10);
      ParseNatToString(n / 10);
    }
  }

  lemma NatToStringInjective(a: nat, b: nat)
    requires NatToString(a) == NatToString(b)
    ensures a == b
  {
    ParseNatToString(a);
    ParseNatToString(b);
  }

  lemma MinusOnlyWhenNegative(i: int)
    ensures IntToString(i)[0] == '-' <==> i < 0
  {
    if i >= 0 {
      assert IntToString(i)[0] == NatToString(i)[0];
    }
  }

  /** Distinct integers render as distinct decimal strings. */
  lemma IntToStringInjective(i: int, j: int)
    requires IntToString(i) == IntToString(j)
    ensures i == j
  {
    if i < 0 && j < 0 {
      assert NatToString(-i) == IntToString(i)[1..];
      assert NatToString(-j) == IntToString(j)[1..];
      NatToStringInjective(-i, -j);
    } else if i >= 0 && j >= 0 {
      NatToStringInjective(i, j);
    } else {
      MinusOnlyWhenNegative(i);
      MinusOnlyWhenNegative(j);
    }
  }

  // ---------------------------------------------------------------------------
  // boost::char_separator<char>(" ") tokenizer: maximal runs of non-separator
  // characters, empty tokens dropped.

  function Tokens(s: string, sep: char): (r: seq<string>)
    ensures forall k :: 0 <= k < |r| ==> r[k] != [] && sep !in r[k]
    decreases |s|
  {
    if s == [] then []
    else if s[0] == sep then Tokens(s[1..], sep)
    else
      var n := RunLength(s, sep);
      [s[..n]] + Tokens(s[n..], sep)
  }

  /** Length of the leading run of non-separator characters. */
  function RunLength(s: string, sep: char): (n: nat)
    ensures n <= |s|
    ensures sep !in s[..n]
    ensures n < |s| ==> s[n] == sep
  {
    if s == [] || s[0] == sep then 0
    else
      var k := RunLength(s[1..], sep);
      assert s[..k + 1] == [s[0]] + s[1..][..k];
      k + 1
  }

  /** The strings of ts written one after another. */
  function Flatten(ts: seq<string>): string
  {
    if ts == [] then [] else ts[0] + Flatten(ts[1..])
  }

  /** t stands at position i of s as a maximal run of characters other than sep. */
  predicate RunAt(s: string, sep: char, i: nat, t: string)
  {
    && t != [] && sep !in t && i + |t| <= |s| && s[i..i + |t|] == t
    && (i == 0 || s[i - 1] == sep)
    && (i + |t| == |s| || s[i + |t|] == sep)
  }

  /** The tokens are exactly the maximal runs of characters other than the separator. */
  lemma TokensAreRuns(s: string, sep: char, t: string)
    ensures t in Tokens(s, sep) <==> exists i: nat :: RunAt(s, sep, i, t)
  {
    if t in Tokens(s, sep) {
      var i := TokenIsRun(s, sep, t);
    }
    if i: nat :| RunAt(s, sep, i, t) {
      RunIsToken(s, sep, i, t);
    }
  }

  /** Written one after another, the tokens give the input without its separators: they come in input order and no other character is lost. */
  lemma {:induction false} TokensInOrder(s: string, sep: char)
    ensures Flatten(Tokens(s, sep)) == RemoveChar(s, sep)
    decreases |s|
  {
    if s != [] {
      if s[0] == sep {
        TokensInOrder(s[1..], sep);
      } else {
        var n := RunLength(s, sep);
        var ts := Tokens(s, sep);
        TokensInOrder(s[n..], sep);
        assert ts[0] == s[..n] && ts[1..] == Tokens(s[n..], sep);
        RemoveCharAbsent(s[..n], sep);
        assert s == s[..n] + s[n..];
        RemoveCharAppend(s[..n], s[n..], sep);
      }
    }
  }

  /** Each token stands somewhere in the input as a maximal run. */
  lemma {:induction false} TokenIsRun(s: string, sep: char, t: string) returns (i: nat)
    requires t in Tokens(s, sep)
    ensures RunAt(s, sep, i, t)
    decreases |s|
  {
    if s[0] == sep {
      var j := TokenIsRun(s[1..], sep, t);
      RunShift(s, sep, 1, j, t);
      i := 1 + j;
    } else {
      var n := RunLength(s, sep);
      if t == s[..n] {
        i := 0;
        assert s[0..n] == s[..n];
      } else {
        var rest := s[n..];
        assert t in Tokens(rest, sep);
        var j := TokenIsRun(rest, sep, t);
        assert rest[j] == t[0] && t[0] in t;
        RunShift(s, sep, n, j, t);
        i := n + j;
      }
    }
  }

  /** A run found in s[m..] is a run of s, when it does not start right after a character other than sep. */
  lemma RunShift(s: string, sep: char, m: nat, j: nat, t: string)
    requires m <= |s| && RunAt(s[m..], sep, j, t)
    requires j > 0 || m == 0 || s[m - 1] == sep
    ensures RunAt(s, sep, m + j, t)
  {
    var rest := s[m..];
    assert rest[j..j + |t|] == s[m + j..m + j + |t|];
    assert j > 0 ==> rest[j - 1] == s[m + j - 1];
    assert m + j + |t| < |s| ==> rest[j + |t|] == s[m + j + |t|];
  }

  /** A run of s that starts at or after m is a run of s[m..]. */
  lemma RunUnshift(s: string, sep: char, m: nat, i: nat, t: string)
    requires m <= i && RunAt(s, sep, i, t)
    ensures RunAt(s[m..], sep, i - m, t)
  {
    var rest := s[m..];
    assert rest[i - m..i - m + |t|] == s[i..i + |t|];
    assert i - m > 0 ==> rest[i - m - 1] == s[i - 1];
    assert i + |t| < |s| ==> rest[i - m + |t|] == s[i + |t|];
  }

  /** Each maximal run of the input is a token. */
  lemma {:induction false} RunIsToken(s: string, sep: char, i: nat, t: string)
    requires RunAt(s, sep, i, t)
    ensures t in Tokens(s, sep)
    decreases |s|
  {
    assert s[i] == t[0] && t[0] in t;
    if s[0] == sep {
      RunUnshift(s, sep, 1, i, t);
      RunIsToken(s[1..], sep, i - 1, t);
    } else if i == 0 {
      RunAtStart(s, sep, t);
    } else {
      var n := RunLength(s, sep);
      RunAfterFirst(s, sep, i - 1);
      RunUnshift(s, sep, n, i, t);
      RunIsToken(s[n..], sep, i - n, t);
    }
  }

  /** A run at the start of the input is its leading run. */
  lemma RunAtStart(s: string, sep: char, t: string)
    requires RunAt(s, sep, 0, t)
    ensures t == s[..RunLength(s, sep)]
  {
    var n := RunLength(s, sep);
    forall k | 0 <= k < n ensures s[k] != sep {
      assert s[k] == s[..n][k];
    }
    forall k | 0 <= k < |t| ensures s[k] != sep {
      assert s[k] == t[k] && t[k] in t;
    }
    assert |t| == n;
  }

  /** A separator lies past the leading run. */
  lemma RunAfterFirst(s: string, sep: char, k: nat)
    requires k < |s| && s[k] == sep
    ensures RunLength(s, sep) <= k
  {
  }

  /** Every character of a token is a character of the input. */
  lemma {:induction false} TokensCharsFromInput(s: string, sep: char, k: nat, i: nat)
    requires k < |Tokens(s, sep)| && i < |Tokens(s, sep)[k]|
    ensures Tokens(s, sep)[k][i] in s
    decreases |s|
  {
    if s[0] == sep {
      TokensCharsFromInput(s[1..], sep, k, i);
    } else {
      var n := RunLength(s, sep);
      if k == 0 {
        assert Tokens(s, sep)[0] == s[..n];
        assert s[..n][i] == s[i];
      } else {
        assert Tokens(s, sep)[k] == Tokens(s[n..], sep)[k - 1];
        TokensCharsFromInput(s[n..], sep, k - 1, i);
        assert Tokens(s[n..], sep)[k - 1][i] in s[n..];
      }
    }
  }

  // ---------------------------------------------------------------------------
  // Output streams as values.

  /**
   * One token of a written line: literal text, an integer, a number whose
   * text formatting is not modelled, two integers joined by '/', or a
   * keyword that a tab rather than a space separates from what follows.
   */
  datatype Tok = W(s: string) | I(n: int) | F(x: real) | P(i: int, j: int) | K(key: string)

  /** One written line: `indent` tab characters, then the tokens, each separated from the next by a single space, or by a tab after a K token. */
  datatype Line = Line(indent: nat, toks: seq<Tok>)

  /** A line holding one literal text. */
  function L(indent: nat, s: string): Line
  {
    Line(indent, [W(s)])
  }

  const Blank := Line(0, [])

  /** Lines written to a stream, and the text of the exception that stopped the writing ("" when none did). */
  datatype Out = Out(lines: seq<Line>, err: string)

  /** What std::unordered_map::at reports for a missing key (libstdc++). */
  const MAP_AT := "_Map_base::at"

  /** Outputs written one after another: their lines, up to and including the first output that ends in an error. */
  function Concat(os: seq<Out>): (r: Out)
    ensures os == [] ==> r == Out([], "")
  {
    if os == [] then Out([], "")
    else if os[0].err != "" then os[0]
    else Out(os[0].lines + Concat(os[1..]).lines, Concat(os[1..]).err)
  }

  /** A loop writing os[k] after the lines acc of os[..k] keeps to Concat(os). */
  lemma ConcatStep(os: seq<Out>, k: nat, acc: seq<Line>)
    requires k < |os|
    requires Concat(os) == Out(acc + Concat(os[k..]).lines, Concat(os[k..]).err)
    ensures os[k].err != "" ==> Concat(os) == Out(acc + os[k].lines, os[k].err)
    ensures os[k].err == "" ==> Concat(os) == Out(acc + os[k].lines + Concat(os[k + 1..]).lines, Concat(os[k + 1..]).err)
  {
    var here := os[k..];
    assert here[0] == os[k] && here[1..] == os[k + 1..];
    if os[k].err == "" {
      var rest := Concat(os[k + 1..]);
      assert Concat(here) == Out(os[k].lines + rest.lines, rest.err);
      assert acc + (os[k].lines + rest.lines) == acc + os[k].lines + rest.lines;
    }
  }

  /** Concat ends in an error exactly when one of the outputs does, and then in the first such output's error. */
  lemma {:induction false} ConcatError(os: seq<Out>)
    ensures Concat(os).err == "" <==> forall i :: 0 <= i < |os| ==> os[i].err == ""
    ensures Concat(os).err != "" ==>
      exists i :: 0 <= i < |os| && os[i].err == Concat(os).err && forall j :: 0 <= j < i ==> os[j].err == ""
  {
    if os != [] && os[0].err == "" {
      var tail := os[1..];
      ConcatError(tail);
      assert forall i :: 1 <= i < |os| ==> os[i] == tail[i - 1];
      if Concat(os).err != "" {
        var i :| 0 <= i < |tail| && tail[i].err == Concat(tail).err && forall j :: 0 <= j < i ==> tail[j].err == "";
        assert os[i + 1].err == Concat(os).err;
      }
    }
  }
}
