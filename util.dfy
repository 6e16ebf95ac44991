/**
 * The separator predicates of src/js/util.js.  A string is a sequence of Dafny `char`s,
 * which stand for the code units of text inside the Basic Multilingual Plane.
 */
module Util {

  /** The JavaScript values `exists` can be handed. */
  datatype Value =
    | Undefined
    | Null
    | Boolean(b: bool)
    | Number(n: int)
    | NaN
    | Str(s: string)
    | Object(ref: nat)

  /** JavaScript truthiness (ToBoolean). */
  predicate Truthy(v: Value)
  {
    match v
    case Undefined => false
    case Null => false
    case Boolean(b) => b
    case Number(n) => n != 0
    case NaN => false
    case Str(s) => s != ""
    case Object(_) => true
  }

  /** `v || v === '' || v === 0 || v === false`: every value but null, undefined and NaN. */
  function Exists(v: Value): (r: bool)
    ensures r <==> !(v.Undefined? || v.Null? || v.NaN?)
  {
    Truthy(v) || v == Str("") || v == Number(0) || v == Boolean(false)
  }

  /** The ECMAScript WhiteSpace code points (TAB, VT, FF, ZWNBSP and category Zs). */
  predicate IsWhiteSpace(c: char)
  {
    || c == '\t' || c == '\U{000B}' || c == '\U{000C}' || c == '\U{FEFF}'
    || c == ' ' || c == '\U{00A0}' || c == '\U{1680}'
    || ('\U{2000}' <= c <= '\U{200A}')
    || c == '\U{202F}' || c == '\U{205F}' || c == '\U{3000}'
  }

  /** The ECMAScript LineTerminator code points (LF, CR, LS, PS). */
  predicate IsLineTerminator(c: char)
  {
    c == '\n' || c == '\r' || c == '\U{2028}' || c == '\U{2029}'
  }

  /** Membership in the regular-expression class `\s`. */
  predicate IsRegExpSpace(c: char)
  {
    IsWhiteSpace(c) || IsLineTerminator(c)
  }

  /** `!!(str && str.charCodeAt(0) === 10)` */
  predicate IsNewLine(s: string)
  {
    s != "" && s[0] == '\n'
  }

  /** `!!(str && str.match(/^\s+$/) && !isNewLine(str))` */
  predicate IsSpace(s: string)
  {
    s != "" && (forall i :: 0 <= i < |s| ==> IsRegExpSpace(s[i])) && !IsNewLine(s)
  }

  /** How a Char's text takes part in splitting: it ends a word, and a newline also ends a block. */
  datatype Kind = Plain | Space | NewLine

  function KindOf(s: string): (k: Kind)
    ensures k == NewLine <==> IsNewLine(s)
    ensures k == Space <==> IsSpace(s)
    ensures k == Plain <==> !IsNewLine(s) && !IsSpace(s)
  {
    if IsNewLine(s) then NewLine else if IsSpace(s) then Space else Plain
  }

  /** A separator ends the word it is in. */
  predicate IsSeparator(s: string)
  {
    IsNewLine(s) || IsSpace(s)
  }

  lemma {:induction false} NewLineIsNotSpace(s: string)
    ensures !(IsNewLine(s) && IsSpace(s))
  {
  }

  lemma {:induction false} NewLineExactly(s: string)
    ensures IsNewLine(s) <==> |s| > 0 && s[0] == '\n'
    ensures IsNewLine("\n") && !IsNewLine("\r") && !IsNewLine(" ") && !IsNewLine("")
  {
  }

  /** The empty terminator never separates anything. */
  lemma {:induction false} TerminatorIsPlain()
    ensures KindOf("") == Plain && !IsSeparator("")
  {
  }

  /** A carriage return matches `\s` and is not a line feed, so it counts as a space. */
  lemma {:induction false} CarriageReturnIsSpace()
    ensures KindOf("\r") == Space
  {
    assert IsRegExpSpace("\r"[0]);
  }

  function TestSpaces(): seq<string>
  {
    [" ", "\t", "\U{000B}", "\U{000C}", "\U{00A0}", "\U{2000}", "\U{2001}",
     "\U{2002}", "\U{2003}", "\U{2028}", "\U{2029}"]
  }

  /** The whitespace the unit tests list are all spaces, and so is a run of them. */
  lemma {:induction false} SpacesOfTheTests()
    ensures forall s :: s in TestSpaces() ==> IsSpace(s)
    ensures IsSpace(" \t ") && !IsSpace("a ") && !IsSpace("\n")
  {
    assert !IsRegExpSpace("a "[0]);
  }
}
