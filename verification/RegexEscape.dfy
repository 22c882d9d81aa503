/** `escapeRegex` and the anchored, case-insensitive comparison that the database derives from it. */
module RegexEscape {
  import opened Basics

  /** SyntaxCharacter of ECMA-262 section 22.2.1. */
  const SYNTAX_CHARACTERS := {'^', '$', '\\', '.', '*', '+', '?', '(', ')', '[', ']', '{', '}', '|'}

  function Escape(s: string): string {
    if s == "" then ""
    else (if s[0] in SYNTAX_CHARACTERS then ['\\', s[0]] else [s[0]]) + Escape(s[1..])
  }

  function Prepend(c: char, rest: Option<string>): Option<string> {
    match rest
    case None => None
    case Some(s) => Some([c] + s)
  }

  /** Reads a pattern as a concatenation of literal characters: an identity escape stands for the
      escaped character, any other character for itself. None: some part of the pattern is an operator. */
  function ReadLiteral(p: string): Option<string> {
    if p == "" then Some("")
    else if p[0] == '\\' then
      if |p| >= 2 && p[1] in SYNTAX_CHARACTERS then Prepend(p[1], ReadLiteral(p[2..])) else None
    else if p[0] in SYNTAX_CHARACTERS then None
    else Prepend(p[0], ReadLiteral(p[1..]))
  }

  /** An escaped text is the pattern of exactly that text. */
  lemma {:induction false} EscapeIsLiteral(s: string)
    ensures ReadLiteral(Escape(s)) == Some(s)
  {
    if s != "" {
      EscapeIsLiteral(s[1..]);
      var e := Escape(s);
      assert s == [s[0]] + s[1..];
      if s[0] in SYNTAX_CHARACTERS {
        assert e[2..] == Escape(s[1..]);
      } else {
        assert e[0] == s[0] && e[1..] == Escape(s[1..]);
      }
    }
  }

  predicate Plain(s: string) {
    forall i :: 0 <= i < |s| ==> s[i] !in SYNTAX_CHARACTERS
  }

  lemma {:induction false} LiteralLength(p: string)
    ensures ReadLiteral(p).Some? ==> |ReadLiteral(p).value| <= |p|
    decreases |p|
  {
    if p != "" {
      LiteralLength(p[1..]);
      if |p| >= 2 {
        LiteralLength(p[2..]);
      }
    }
  }

  /** Without escaping, a text is a pattern of itself exactly when it has no syntax character. */
  lemma {:induction false} UnescapedIsLiteralIffPlain(s: string)
    ensures ReadLiteral(s) == Some(s) <==> Plain(s)
  {
    if s != "" {
      UnescapedIsLiteralIffPlain(s[1..]);
      assert s == [s[0]] + s[1..];
      if s[0] == '\\' && |s| >= 2 {
        LiteralLength(s[2..]);
      }
      if Plain(s) {
        assert Plain(s[1..]) by {
          assert forall i :: 0 <= i < |s[1..]| ==> s[1..][i] == s[i + 1];
        }
      } else if Plain(s[1..]) {
        var i :| 0 <= i < |s| && s[i] in SYNTAX_CHARACTERS;
        assert i > 0 ==> s[i] == s[1..][i - 1];
      }
    }
  }

  // ---------------------------------------------------------------- comparison

  /** Simple case folding of one character, whatever the alphabet. */
  type Fold = char -> char

  predicate EqualFold(a: string, b: string, fold: Fold) {
    |a| == |b| && forall i :: 0 <= i < |a| ==> fold(a[i]) == fold(b[i])
  }

  /** Folding decides alone which texts are equal: without folding only the text itself is, and texts of
      the same length are unless folding tells two characters at one place apart. */
  lemma EqualFoldExactly(a: string, b: string, fold: Fold)
    ensures EqualFold(a, b, c => c) <==> a == b
    ensures |a| == |b| ==> (!EqualFold(a, b, fold) <==> exists i :: 0 <= i < |a| && fold(a[i]) != fold(b[i]))
  {
  }

  /** `^pattern$` with the flag i, for a pattern of literals. */
  predicate Matches(pattern: string, text: string, fold: Fold) {
    ReadLiteral(pattern).Some? && EqualFold(ReadLiteral(pattern).value, text, fold)
  }

  /** The filter built by `insensitiveEquals` finds exactly the texts equal up to case. */
  lemma InsensitiveEqualsExact(value: string, text: string, fold: Fold)
    ensures Matches(Escape(value), text, fold) <==> EqualFold(value, text, fold)
  {
    EscapeIsLiteral(value);
  }
}
