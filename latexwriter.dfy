/**
 * LatexWriter::sanit: the escaping of user text (captions, colour names and
 * free text) before it is embedded in a LaTeX document. The source rewrites
 * the string with eleven replace_all passes in a fixed order; the model keeps
 * that chain of passes (Sanit) and proves it equal to an independent
 * definition that escapes each character on its own (EscapeAll).
 */
module LatexWriter {

  import opened Text

  /** The eleven characters that LaTeX would read as markup. */
  predicate Special(c: char) {
    c == '\\' || c == '#' || c == '$' || c == '%' || c == '&' || c == '^'
    || c == '_' || c == '{' || c == '}' || c == '~' || c == '|'
  }

  /** The text that stands for one character in the escaped output. */
  function Escape(c: char): (r: string)
    ensures r == [c] <==> !Special(c)
    ensures |r| >= 1
    ensures r[0] == c || r[0] == '\\' || r[0] == '$'
  {
    match c
    case '\\' => "\\textbackslash"
    case '#' => "\\#"
    case '$' => "\\$"
    case '%' => "\\%"
    case '&' => "\\&"
    case '^' => "\\textasciicircum"
    case '_' => "\\_"
    case '{' => "\\{"
    case '}' => "\\}"
    case '~' => "\\~{}"
    case '|' => "$\\mid$"
    case _ => [c]
  }

  /** Reference definition: every character escaped independently, left to right. */
  function EscapeAll(s: string): (r: string)
    ensures |r| >= |s|
  {
    if s == [] then [] else Escape(s[0]) + EscapeAll(s[1..])
  }

  /**
   * sanit as written: the backslash pass first (so that the backslashes the
   * later passes insert are not themselves rewritten), then one replace_all
   * per remaining special character in the source's order.
   */
  function Sanit(s: string): string {
    var ns0 := ReplaceChar(s, '\\', "\\textbackslash");
    var ns1 := ReplaceChar(ns0, '#', "\\#");
    var ns2 := ReplaceChar(ns1, '$', "\\$");
    var ns3 := ReplaceChar(ns2, '%', "\\%");
    var ns4 := ReplaceChar(ns3, '&', "\\&");
    var ns5 := ReplaceChar(ns4, '^', "\\textasciicircum");
    var ns6 := ReplaceChar(ns5, '_', "\\_");
    var ns7 := ReplaceChar(ns6, '{', "\\{");
    var ns8 := ReplaceChar(ns7, '}', "\\}");
    var ns9 := ReplaceChar(ns8, '~', "\\~{}");
    ReplaceChar(ns9, '|', "$\\mid$")
  }

  /**
   * The position of a special character's pass in sanit's order (0 for the
   * backslash, 10 for '|'), and 11 for a character no pass rewrites.
   */
  function Rank(c: char): (r: nat)
    ensures r <= 11
    ensures r < 11 <==> Special(c)
  {
    match c
    case '\\' => 0
    case '#' => 1
    case '$' => 2
    case '%' => 3
    case '&' => 4
    case '^' => 5
    case '_' => 6
    case '{' => 7
    case '}' => 8
    case '~' => 9
    case '|' => 10
    case _ => 11
  }

  /** No pass matches a character that an earlier pass produced. */
  lemma LaterMiss(x: char, c: char)
    requires Rank(x) < Rank(c) < 11
    ensures c !in Escape(x)
  {
  }

  /** A character after the first k passes. */
  function Part(x: char, k: nat): string {
    if Rank(x) < k then Escape(x) else [x]
  }

  /** A string after the first k passes, as a character-by-character escape. */
  function PartAll(s: string, k: nat): (r: string)
    ensures k == 0 ==> r == s
    ensures k == 11 ==> r == EscapeAll(s)
  {
    if s == [] then [] else Part(s[0], k) + PartAll(s[1..], k)
  }

  /** Pass k on one partially escaped character. */
  lemma PassChar(x: char, c: char, k: nat)
    requires Rank(c) == k < 11
    ensures ReplaceChar(Part(x, k), c, Escape(c)) == Part(x, k + 1)
  {
    if Rank(x) < k {
      LaterMiss(x, c);
      ReplaceCharAbsent(Escape(x), c, Escape(c));
    } else if Rank(x) == k {
      assert x == c;
    }
  }

  /** Pass k turns the result of the first k passes into that of the first k + 1. */
  lemma {:induction false} PassAll(s: string, c: char, rep: string, k: nat)
    requires Rank(c) == k < 11 && rep == Escape(c)
    ensures ReplaceChar(PartAll(s, k), c, rep) == PartAll(s, k + 1)
  {
    if s != [] {
      ReplaceCharAppend(Part(s[0], k), PartAll(s[1..], k), c, rep);
      PassChar(s[0], c, k);
      PassAll(s[1..], c, rep, k);
    }
  }

  /** The passes of sanit, in order: pass k replaces the character of rank k by its escape. */
  lemma SanitRules()
    ensures Rank('\\') == 0 && Escape('\\') == "\\textbackslash"
    ensures Rank('#') == 1 && Escape('#') == "\\#"
    ensures Rank('$') == 2 && Escape('$') == "\\$"
    ensures Rank('%') == 3 && Escape('%') == "\\%"
    ensures Rank('&') == 4 && Escape('&') == "\\&"
    ensures Rank('^') == 5 && Escape('^') == "\\textasciicircum"
    ensures Rank('_') == 6 && Escape('_') == "\\_"
    ensures Rank('{') == 7 && Escape('{') == "\\{"
    ensures Rank('}') == 8 && Escape('}') == "\\}"
    ensures Rank('~') == 9 && Escape('~') == "\\~{}"
    ensures Rank('|') == 10 && Escape('|') == "$\\mid$"
  {
  }

  /** sanit escapes each character independently. */
  lemma SanitEscapes(s: string)
    ensures Sanit(s) == EscapeAll(s)
  {
    var ns0 := ReplaceChar(s, '\\', "\\textbackslash");
    assert ns0 == PartAll(s, 1) by { SanitRules(); PassAll(s, '\\', "\\textbackslash", 0); }
    var ns1 := ReplaceChar(ns0, '#', "\\#");
    assert ns1 == PartAll(s, 2) by { SanitRules(); PassAll(s, '#', "\\#", 1); }
    var ns2 := ReplaceChar(ns1, '$', "\\$");
    assert ns2 == PartAll(s, 3) by { SanitRules(); PassAll(s, '$', "\\$", 2); }
    var ns3 := ReplaceChar(ns2, '%', "\\%");
    assert ns3 == PartAll(s, 4) by { SanitRules(); PassAll(s, '%', "\\%", 3); }
    var ns4 := ReplaceChar(ns3, '&', "\\&");
    assert ns4 == PartAll(s, 5) by { SanitRules(); PassAll(s, '&', "\\&", 4); }
    var ns5 := ReplaceChar(ns4, '^', "\\textasciicircum");
    assert ns5 == PartAll(s, 6) by { SanitRules(); PassAll(s, '^', "\\textasciicircum", 5); }
    var ns6 := ReplaceChar(ns5, '_', "\\_");
    assert ns6 == PartAll(s, 7) by { SanitRules(); PassAll(s, '_', "\\_", 6); }
    var ns7 := ReplaceChar(ns6, '{', "\\{");
    assert ns7 == PartAll(s, 8) by { SanitRules(); PassAll(s, '{', "\\{", 7); }
    var ns8 := ReplaceChar(ns7, '}', "\\}");
    assert ns8 == PartAll(s, 9) by { SanitRules(); PassAll(s, '}', "\\}", 8); }
    var ns9 := ReplaceChar(ns8, '~', "\\~{}");
    assert ns9 == PartAll(s, 10) by { SanitRules(); PassAll(s, '~', "\\~{}", 9); }
    var ns10 := ReplaceChar(ns9, '|', "$\\mid$");
    assert ns10 == PartAll(s, 11) by { SanitRules(); PassAll(s, '|', "$\\mid$", 10); }
  }

  lemma {:induction false} EscapeAllAppend(a: string, b: string)
    ensures EscapeAll(a + b) == EscapeAll(a) + EscapeAll(b)
  {
    if a == [] {
      assert a + b == b;
    } else {
      assert (a + b)[0] == a[0];
      assert (a + b)[1..] == a[1..] + b;
      EscapeAllAppend(a[1..], b);
    }
  }

  /** Text without any of the eleven special characters comes back unchanged. */
  lemma {:induction false} EscapeAllPlain(s: string)
    requires forall i :: 0 <= i < |s| ==> !Special(s[i])
    ensures EscapeAll(s) == s
  {
    if s != [] {
      EscapeAllPlain(s[1..]);
      assert s == [s[0]] + s[1..];
    }
  }

  /** ... and text with one comes back longer. */
  lemma {:induction false} EscapeAllGrows(s: string, i: nat)
    requires i < |s| && Special(s[i])
    ensures |EscapeAll(s)| > |s|
  {
    if i > 0 {
      EscapeAllGrows(s[1..], i - 1);
    }
  }

  /**
   * The properties of sanit: it distributes over concatenation, returns text
   * free of special characters unchanged, never shortens its input, and
   * lengthens it exactly when some special character is present.
   */
  lemma SanitProperties(a: string, b: string)
    ensures Sanit(a + b) == Sanit(a) + Sanit(b)
    ensures (forall i :: 0 <= i < |a| ==> !Special(a[i])) ==> Sanit(a) == a
    ensures |Sanit(a)| >= |a|
    ensures |Sanit(a)| == |a| <==> forall i :: 0 <= i < |a| ==> !Special(a[i])
  {
    SanitEscapes(a);
    SanitEscapes(b);
    SanitEscapes(a + b);
    EscapeAllAppend(a, b);
    if forall i :: 0 <= i < |a| ==> !Special(a[i]) {
      EscapeAllPlain(a);
    } else {
      var i :| 0 <= i < |a| && Special(a[i]);
      EscapeAllGrows(a, i);
    }
  }
}
