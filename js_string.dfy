/**
 * The part of JavaScript string semantics the schemas rely on: String.prototype.trim,
 * which removes leading and trailing WhiteSpace and LineTerminator code points
 * (ECMAScript, sections 12.2 and 12.3, "White Space" and "Line Terminators").
 */
module JsString {

  /** TAB, VT, FF, SP, NBSP, ZWNBSP, the other Zs space separators, LF, CR, LS and PS. */
  predicate IsWhitespace(c: char) {
    || c == '\t' || c == '\n' || c == '\U{B}' || c == '\U{C}' || c == '\r'
    || c == ' ' || c == '\U{A0}' || c == '\U{1680}'
    || ('\U{2000}' <= c <= '\U{200A}')
    || c == '\U{2028}' || c == '\U{2029}' || c == '\U{202F}' || c == '\U{205F}'
    || c == '\U{3000}' || c == '\U{FEFF}'
  }

  /** Every character is whitespace (the empty string included). */
  predicate Blank(s: string) {
    forall i | 0 <= i < |s| :: IsWhitespace(s[i])
  }

  /** Neither the first nor the last character is whitespace. */
  predicate NoEdgeWhitespace(s: string) {
    s == [] || (!IsWhitespace(s[0]) && !IsWhitespace(s[|s| - 1]))
  }

  /** String.prototype.trimStart: drop whitespace from the front. */
  function TrimStart(s: string): string {
    if s != [] && IsWhitespace(s[0]) then TrimStart(s[1..]) else s
  }

  /** String.prototype.trimEnd: drop whitespace from the back. */
  function TrimEnd(s: string): string {
    if s != [] && IsWhitespace(s[|s| - 1]) then TrimEnd(s[..|s| - 1]) else s
  }

  /** String.prototype.trim. */
  function Trim(s: string): string {
    TrimEnd(TrimStart(s))
  }

  /** A trimmed string is one that trim leaves as it is. */
  predicate IsTrimmed(s: string) {
    Trim(s) == s
  }

  /** trimStart keeps the longest suffix that does not start with whitespace, and only whitespace goes. */
  lemma {:induction false} TrimStartSpec(s: string)
    ensures var r := TrimStart(s);
      && |r| <= |s| && r == s[|s| - |r|..]
      && Blank(s[..|s| - |r|])
      && (r == [] || !IsWhitespace(r[0]))
  {
    if s != [] && IsWhitespace(s[0]) {
      TrimStartSpec(s[1..]);
      var r := TrimStart(s);
      assert s[..|s| - |r|] == [s[0]] + s[1..][..|s| - 1 - |r|];
    }
  }

  /** trimEnd keeps the longest prefix that does not end with whitespace, and only whitespace goes. */
  lemma {:induction false} TrimEndSpec(s: string)
    ensures var r := TrimEnd(s);
      && |r| <= |s| && r == s[..|r|]
      && Blank(s[|r|..])
      && (r == [] || !IsWhitespace(r[|r| - 1]))
  {
    if s != [] && IsWhitespace(s[|s| - 1]) {
      TrimEndSpec(s[..|s| - 1]);
      var r := TrimEnd(s);
      assert s[|r|..] == s[..|s| - 1][|r|..] + [s[|s| - 1]];
    }
  }

  /** trim leaves no whitespace at either end and never lengthens its input. */
  lemma TrimSpec(s: string)
    ensures |Trim(s)| <= |s|
    ensures NoEdgeWhitespace(Trim(s))
  {
    var t := TrimStart(s);
    TrimStartSpec(s);
    TrimEndSpec(t);
    var r := TrimEnd(t);
    assert r != [] ==> r[0] == t[0];
  }

  /** Trim leaves a string alone exactly when it has no whitespace at either end. */
  lemma TrimmedIff(s: string)
    ensures IsTrimmed(s) <==> NoEdgeWhitespace(s)
  {
    if NoEdgeWhitespace(s) {
      assert TrimStart(s) == s;
      assert TrimEnd(s) == s;
    } else {
      TrimSpec(s);
    }
  }

  /** Trimming twice is trimming once. */
  lemma TrimIdempotent(s: string)
    ensures IsTrimmed(Trim(s))
  {
    TrimSpec(s);
    TrimmedIff(Trim(s));
  }

  /** Trim yields the empty string exactly when the input is all whitespace. */
  lemma TrimEmptyIffBlank(s: string)
    ensures Trim(s) == [] <==> Blank(s)
  {
    var t := TrimStart(s);
    TrimStartSpec(s);
    TrimEndSpec(t);
    if Trim(s) == [] {
      assert Blank(t[0..]);
      assert s == s[..|s| - |t|] + t;
    }
  }
}
