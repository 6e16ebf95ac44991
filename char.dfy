/**
 * src/js/char.js: a Char is one character of text with its formatting properties.
 * Its `parent` reference lives in the object store (the `charParent` map of Tree.Heap); this
 * module holds the value part, which is what `toggleProp` rewrites.
 */
module Chars {
  import opened Wrappers
  import opened Util

  /** `this.props`: property names in `Object.keys` order, each with its value. */
  type Props = seq<(string, bool)>

  datatype Char = Char(ch: string, props: Props)

  /** `props[name]`, looked up by the first entry with that key (JavaScript keys are unique). */
  function Get(props: Props, name: string): Option<bool>
  {
    if props == [] then None
    else if props[0].0 == name then Some(props[0].1)
    else Get(props[1..], name)
  }

  /** `!!props[name]` */
  predicate IsOn(props: Props, name: string)
  {
    Get(props, name) == Some(true)
  }

  /** `props[name] = v`: an existing key keeps its place, a new key goes last. */
  function Set(props: Props, name: string, v: bool): (r: Props)
    ensures Get(r, name) == Some(v)
    ensures forall q :: q != name ==> Get(r, q) == Get(props, q)
  {
    if props == [] then [(name, v)]
    else if props[0].0 == name then [(name, v)] + props[1..]
    else [props[0]] + Set(props[1..], name, v)
  }

  /** `new Char(char, parent)` stores `char || ''` and starts with no properties. */
  function New(c: Option<string>): (r: Char)
    ensures r.props == [] && forall name :: !IsOn(r.props, name)
    ensures c.Some? ==> r.ch == c.value
    ensures c.None? ==> r.ch == ""
  {
    match c
    case None => Char("", [])
    case Some(s) => Char(s, [])
  }

  /** The names `getProps` collects: the keys whose value is truthy, in key order. */
  function OnNames(props: Props): (r: seq<string>)
    ensures |r| <= |props|
    ensures forall k :: k in r ==> exists i :: 0 <= i < |props| && props[i] == (k, true)
  {
    if props == [] then []
    else OnNames(props[..|props| - 1]) + (if props[|props| - 1].1 then [props[|props| - 1].0] else [])
  }

  /** Every key with a true value is collected. */
  lemma {:induction false} OnNamesComplete(props: Props, i: nat)
    requires i < |props| && props[i].1
    ensures props[i].0 in OnNames(props)
  {
    if i < |props| - 1 {
      OnNamesComplete(props[..|props| - 1], i);
    }
  }

  /** `getProps()`: the `forEach` over the keys pushing each truthy one. */
  method GetProps(c: Char) returns (names: seq<string>)
    ensures names == OnNames(c.props)
  {
    names := [];
    var i := 0;
    while i < |c.props|
      invariant 0 <= i <= |c.props|
      invariant names == OnNames(c.props[..i])
    {
      assert c.props[..i + 1][..i] == c.props[..i];
      if c.props[i].1 {
        names := names + [c.props[i].0];
      }
      i := i + 1;
    }
    assert c.props[..|c.props|] == c.props;
  }

  /** The node `toJSON(id)` produces for the debugging tree. */
  datatype CharJson = CharJson(id: string, name: string, children: seq<string>)

  /** A newline is shown as `\n`, any other whitespace as `[ ]`, anything else as itself. */
  function ToJson(c: Char, id: string): (r: CharJson)
    ensures r.id == "c" + id && r.children == OnNames(c.props)
    ensures KindOf(c.ch) == NewLine ==> r.name == "\\n"
    ensures KindOf(c.ch) == Space ==> r.name == "[ ]"
    ensures KindOf(c.ch) == Plain ==> r.name == c.ch
  {
    var name := if IsNewLine(c.ch) then "\\n" else if IsSpace(c.ch) then "[ ]" else c.ch;
    CharJson("c" + id, name, OnNames(c.props))
  }

  /** `toString()` */
  function ToString(c: Char): string
  {
    c.ch
  }

  /** `toHTML()`: formatting tags are added by the Word, so a Char renders as its text. */
  function ToHtml(c: Char): (r: string)
    ensures r == ToString(c)
  {
    c.ch
  }

  /** A fresh Char carries no property, so `getProps` of it is empty. */
  lemma {:induction false} NewHasNoProps(c: Option<string>)
    ensures OnNames(New(c).props) == []
  {
  }
}
