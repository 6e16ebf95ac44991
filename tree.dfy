/**
 * The object tree of the editor: a Document holds Blocks, a Block holds Words, a Word
 * holds Chars, and the Document also keeps every Char in one flat array.  Objects are
 * compared by reference in the source, so here every Block, Word and Char is a number
 * into one store, and every field of every object is an entry of a map of the store.
 *
 * This module holds the store as a value (Heap), the read-only views (`getChars`,
 * `toString`), the constructors of the three node kinds and the list operations that do
 * not re-split a word.  The operations that end in `word.split()` are in Words and
 * Blocks, the document-level editing in Documents, and the mutable store whose methods
 * carry all of these out step by step is the class Engine.Document.
 */
module Tree {
  import opened Wrappers
  import opened Util
  import opened Chars
  import opened Seqs

  type CharId = nat
  type WordId = nat
  type BlockId = nat

  /** Every field of every object, as a value. */
  datatype Heap = Heap(
    blocks: seq<BlockId>,                      // Document.blocks
    chars: seq<CharId>,                        // Document.chars
    tail: CharId,                              // Document.tail
    blockWords: map<BlockId, seq<WordId>>,     // Block.words
    blockAttached: map<BlockId, bool>,         // Block.parent is the document (true) or null/undefined
    wordChars: map<WordId, seq<CharId>>,       // Word.chars
    wordParent: map<WordId, Option<BlockId>>,  // Word.parent
    charValue: map<CharId, Char>,              // Char.char and Char.props
    charParent: map<CharId, Option<WordId>>,   // Char.parent
    next: nat)                                 // the first id not yet handed out

  /** Every reference held by the store leads to an object of the store, and every id is below `next`. */
  ghost predicate WellFormed(h: Heap)
  {
    KeysMatch(h) && Bounded(h) && ListsStored(h) && ChildrenStored(h) && ParentsStored(h)
  }

  /** Each object kind has all of its fields. */
  ghost predicate KeysMatch(h: Heap)
  {
    && h.blockWords.Keys == h.blockAttached.Keys
    && h.wordChars.Keys == h.wordParent.Keys
    && h.charValue.Keys == h.charParent.Keys
  }

  /** Every object has been handed out. */
  ghost predicate Bounded(h: Heap)
  {
    && (forall b: BlockId :: b in h.blockWords ==> b < h.next)
    && (forall v: WordId :: v in h.wordChars ==> v < h.next)
    && (forall c: CharId :: c in h.charValue ==> c < h.next)
  }

  /** The document's two lists hold objects of the store. */
  ghost predicate ListsStored(h: Heap)
  {
    && (forall b: BlockId :: b in h.blocks ==> b in h.blockWords)
    && (forall c: CharId :: c in h.chars ==> c in h.charValue)
  }

  /** The children of blocks and words are objects of the store. */
  ghost predicate ChildrenStored(h: Heap)
  {
    && (forall b, v :: b in h.blockWords && v in h.blockWords[b] ==> v in h.wordChars)
    && (forall v, c :: v in h.wordChars && c in h.wordChars[v] ==> c in h.charValue)
  }

  /** The parents of words and chars are objects of the store. */
  ghost predicate ParentsStored(h: Heap)
  {
    && (forall v: WordId :: v in h.wordParent && h.wordParent[v].Some? ==> h.wordParent[v].value in h.blockWords)
    && (forall c: CharId :: c in h.charParent && h.charParent[c].Some? ==> h.charParent[c].value in h.wordChars)
  }

  /** How `split` classifies a char (word.js:87,102): by its text, as Util does. */
  function KindIn(cv: map<CharId, Char>): CharId -> Kind
  {
    c => if c in cv then KindOf(cv[c].ch) else Plain
  }

  /** Give every key of ks the value v, one after the other (the `forEach` loops that set `parent`). */
  function SetAll<K, V>(m: map<K, V>, ks: seq<K>, v: V): map<K, V>
    decreases |ks|
  {
    if ks == [] then m else SetAll(m[ks[0] := v], ks[1..], v)
  }

  lemma {:induction false} SetAllAt<K, V>(m: map<K, V>, ks: seq<K>, v: V)
    ensures SetAll(m, ks, v).Keys == m.Keys + set k | k in ks
    ensures forall k :: k in ks ==> SetAll(m, ks, v)[k] == v
    ensures forall k :: k in m && k !in ks ==> SetAll(m, ks, v)[k] == m[k]
    decreases |ks|
  {
    if ks != [] {
      SetAllAt(m[ks[0] := v], ks[1..], v);
      forall k | k in ks ensures k == ks[0] || k in ks[1..] {
        var i :| 0 <= i < |ks| && ks[i] == k;
        if i > 0 { assert ks[1..][i - 1] == k; }
      }
    }
  }

  /** Two stores are the same when every field is. */
  lemma {:induction false} HeapEq(r: Heap, t: Heap)
    requires r.blocks == t.blocks && r.chars == t.chars && r.tail == t.tail
    requires r.blockWords == t.blockWords && r.blockAttached == t.blockAttached
    requires r.wordChars == t.wordChars && r.wordParent == t.wordParent
    requires r.charValue == t.charValue && r.charParent == t.charParent && r.next == t.next
    ensures r == t
  {
  }

  /** Setting one more key at the end is one more update. */
  lemma {:induction false} SetAllSnoc<K, V>(m: map<K, V>, ks: seq<K>, k: K, v: V)
    ensures SetAll(m, ks + [k], v) == SetAll(m, ks, v)[k := v]
    decreases |ks|
  {
    if ks == [] {
      assert ks + [k] == [k];
    } else {
      assert (ks + [k])[1..] == ks[1..] + [k];
      SetAllSnoc(m[ks[0] := v], ks[1..], k, v);
    }
  }

  // ---------------------------------------------------------------------------------
  // Views: getChars and toString of blocks and words, and the document's text.

  /** The chars of the words ws, in order: the `reduce` of Block.getChars (block.js:116-120). */
  function WordsChars(wc: map<WordId, seq<CharId>>, ws: seq<WordId>): seq<CharId>
    requires forall v: WordId :: v in ws ==> v in wc
  {
    if ws == [] then [] else WordsChars(wc, ws[..|ws| - 1]) + wc[ws[|ws| - 1]]
  }

  lemma {:induction false} WordsCharsAppend(wc: map<WordId, seq<CharId>>, a: seq<WordId>, b: seq<WordId>)
    requires forall v: WordId :: v in a + b ==> v in wc
    ensures WordsChars(wc, a + b) == WordsChars(wc, a) + WordsChars(wc, b)
  {
    if b == [] {
      assert a + b == a;
    } else {
      assert (a + b)[..|a + b| - 1] == a + b[..|b| - 1];
      WordsCharsAppend(wc, a, b[..|b| - 1]);
    }
  }

  /** The chars of ws only depend on the chars of the words in ws. */
  lemma {:induction false} WordsCharsFrame(wc: map<WordId, seq<CharId>>, wc': map<WordId, seq<CharId>>, ws: seq<WordId>)
    requires forall v: WordId :: v in ws ==> v in wc && v in wc' && wc'[v] == wc[v]
    ensures WordsChars(wc', ws) == WordsChars(wc, ws)
  {
    if ws != [] {
      WordsCharsFrame(wc, wc', ws[..|ws| - 1]);
    }
  }

  ghost predicate BlocksIn(bw: map<BlockId, seq<WordId>>, wc: map<WordId, seq<CharId>>, bs: seq<BlockId>)
  {
    forall b: BlockId :: b in bs ==> b in bw && forall v: WordId :: v in bw[b] ==> v in wc
  }

  /** The chars of the blocks bs, in order: the `reduce` of the Document constructor (document.js:14-16). */
  function BlocksChars(bw: map<BlockId, seq<WordId>>, wc: map<WordId, seq<CharId>>, bs: seq<BlockId>): seq<CharId>
    requires BlocksIn(bw, wc, bs)
  {
    if bs == [] then [] else BlocksChars(bw, wc, bs[..|bs| - 1]) + WordsChars(wc, bw[bs[|bs| - 1]])
  }

  lemma {:induction false} BlocksCharsAppend(bw: map<BlockId, seq<WordId>>, wc: map<WordId, seq<CharId>>, a: seq<BlockId>, b: seq<BlockId>)
    requires BlocksIn(bw, wc, a + b)
    ensures BlocksChars(bw, wc, a + b) == BlocksChars(bw, wc, a) + BlocksChars(bw, wc, b)
  {
    if b == [] {
      assert a + b == a;
    } else {
      assert (a + b)[..|a + b| - 1] == a + b[..|b| - 1];
      BlocksCharsAppend(bw, wc, a, b[..|b| - 1]);
    }
  }

  /** The chars of bs only depend on the word lists of bs and the chars of their words. */
  lemma {:induction false} BlocksCharsFrame(bw: map<BlockId, seq<WordId>>, wc: map<WordId, seq<CharId>>,
                                            bw': map<BlockId, seq<WordId>>, wc': map<WordId, seq<CharId>>, bs: seq<BlockId>)
    requires BlocksIn(bw, wc, bs) && BlocksIn(bw', wc', bs)
    requires forall b: BlockId :: b in bs ==> bw'[b] == bw[b] && forall v: WordId :: v in bw[b] ==> wc'[v] == wc[v]
    ensures BlocksChars(bw', wc', bs) == BlocksChars(bw, wc, bs)
  {
    if bs != [] {
      var b := bs[|bs| - 1];
      WordsCharsFrame(wc, wc', bw[b]);
      BlocksCharsFrame(bw, wc, bw', wc', bs[..|bs| - 1]);
    }
  }

  /** `block.getChars()` (block.js:116-120). */
  function BlockChars(h: Heap, b: BlockId): seq<CharId>
    requires WellFormed(h) && b in h.blockWords
  {
    WordsChars(h.wordChars, h.blockWords[b])
  }

  /** Every char of the tree in document order: what `chars` holds when it agrees with the tree. */
  function Flatten(h: Heap): seq<CharId>
    requires WellFormed(h)
  {
    BlocksChars(h.blockWords, h.wordChars, h.blocks)
  }

  /** The text of chars cs, each by its `toString()` (char.js:46-48). */
  function TextOf(cv: map<CharId, Char>, cs: seq<CharId>): string
    requires forall c: CharId :: c in cs ==> c in cv
  {
    if cs == [] then "" else TextOf(cv, cs[..|cs| - 1]) + Chars.ToString(cv[cs[|cs| - 1]])
  }

  lemma {:induction false} TextAppend(cv: map<CharId, Char>, a: seq<CharId>, b: seq<CharId>)
    requires forall c: CharId :: c in a + b ==> c in cv
    ensures TextOf(cv, a + b) == TextOf(cv, a) + TextOf(cv, b)
  {
    if b == [] {
      assert a + b == a;
    } else {
      assert (a + b)[..|a + b| - 1] == a + b[..|b| - 1];
      TextAppend(cv, a, b[..|b| - 1]);
    }
  }

  /** The text of cs only depends on the values of the chars in cs. */
  lemma {:induction false} TextFrame(cv: map<CharId, Char>, cv': map<CharId, Char>, cs: seq<CharId>)
    requires forall c: CharId :: c in cs ==> c in cv && c in cv' && cv'[c] == cv[c]
    ensures TextOf(cv', cs) == TextOf(cv, cs)
  {
    if cs != [] {
      TextFrame(cv, cv', cs[..|cs| - 1]);
    }
  }

  /** `word.toString()` is `chars.join('')` (word.js:244-246). */
  function WordString(h: Heap, v: WordId): string
    requires WellFormed(h) && v in h.wordChars
  {
    TextOf(h.charValue, h.wordChars[v])
  }

  function WordsString(h: Heap, ws: seq<WordId>): string
    requires WellFormed(h) && forall v: WordId :: v in ws ==> v in h.wordChars
  {
    if ws == [] then "" else WordsString(h, ws[..|ws| - 1]) + WordString(h, ws[|ws| - 1])
  }

  /** `block.toString()` is `words.join('')` (block.js:134-136). */
  function BlockString(h: Heap, b: BlockId): string
    requires WellFormed(h) && b in h.blockWords
  {
    WordsString(h, h.blockWords[b])
  }

  function BlocksString(h: Heap, bs: seq<BlockId>): string
    requires WellFormed(h) && forall b: BlockId :: b in bs ==> b in h.blockWords
  {
    if bs == [] then "" else BlocksString(h, bs[..|bs| - 1]) + BlockString(h, bs[|bs| - 1])
  }

  /** `document.toString()` is `blocks.join('')` (document.js:168-170). */
  function DocString(h: Heap): string
    requires WellFormed(h)
  {
    BlocksString(h, h.blocks)
  }

  /** Every char reached through the tree is an object of the store. */
  lemma {:induction false} WordsCharsStored(h: Heap, ws: seq<WordId>)
    requires WellFormed(h) && forall v: WordId :: v in ws ==> v in h.wordChars
    ensures forall c: CharId :: c in WordsChars(h.wordChars, ws) ==> c in h.charValue
  {
    if ws != [] {
      WordsCharsStored(h, ws[..|ws| - 1]);
    }
  }

  lemma {:induction false} BlocksCharsStored(h: Heap, bs: seq<BlockId>)
    requires WellFormed(h) && forall b: BlockId :: b in bs ==> b in h.blockWords
    ensures forall c: CharId :: c in BlocksChars(h.blockWords, h.wordChars, bs) ==> c in h.charValue
  {
    if bs != [] {
      BlocksCharsStored(h, bs[..|bs| - 1]);
      WordsCharsStored(h, h.blockWords[bs[|bs| - 1]]);
    }
  }

  /** A block's text is the text of its chars: joining words adds nothing between them. */
  lemma {:induction false} BlockStringIsText(h: Heap, ws: seq<WordId>)
    requires WellFormed(h) && forall v: WordId :: v in ws ==> v in h.wordChars
    ensures forall c: CharId :: c in WordsChars(h.wordChars, ws) ==> c in h.charValue
    ensures WordsString(h, ws) == TextOf(h.charValue, WordsChars(h.wordChars, ws))
  {
    WordsCharsStored(h, ws);
    if ws != [] {
      var init, v := ws[..|ws| - 1], ws[|ws| - 1];
      BlockStringIsText(h, init);
      WordsCharsStored(h, init);
      TextAppend(h.charValue, WordsChars(h.wordChars, init), h.wordChars[v]);
    }
  }

  /** The document's text is the text of `Flatten`: no separator is added between blocks or words. */
  lemma {:induction false} DocStringIsText(h: Heap, bs: seq<BlockId>)
    requires WellFormed(h) && forall b: BlockId :: b in bs ==> b in h.blockWords
    ensures forall c: CharId :: c in BlocksChars(h.blockWords, h.wordChars, bs) ==> c in h.charValue
    ensures BlocksString(h, bs) == TextOf(h.charValue, BlocksChars(h.blockWords, h.wordChars, bs))
  {
    BlocksCharsStored(h, bs);
    if bs != [] {
      var init, b := bs[..|bs| - 1], bs[|bs| - 1];
      DocStringIsText(h, init);
      BlockStringIsText(h, h.blockWords[b]);
      BlocksCharsStored(h, init);
      WordsCharsStored(h, h.blockWords[b]);
      TextAppend(h.charValue, BlocksChars(h.blockWords, h.wordChars, init), WordsChars(h.wordChars, h.blockWords[b]));
    }
  }

  /** The words of the blocks bs, in order: the document's words as a reader meets them. */
  function DocWords(bw: map<BlockId, seq<WordId>>, bs: seq<BlockId>): seq<WordId>
    requires forall b: BlockId :: b in bs ==> b in bw
  {
    if bs == [] then [] else DocWords(bw, bs[..|bs| - 1]) + bw[bs[|bs| - 1]]
  }

  lemma {:induction false} DocWordsAppend(bw: map<BlockId, seq<WordId>>, a: seq<BlockId>, b: seq<BlockId>)
    requires forall x: BlockId :: x in a + b ==> x in bw
    ensures DocWords(bw, a + b) == DocWords(bw, a) + DocWords(bw, b)
  {
    if b == [] {
      assert a + b == a;
    } else {
      assert (a + b)[..|a + b| - 1] == a + b[..|b| - 1];
      DocWordsAppend(bw, a, b[..|b| - 1]);
    }
  }

  /** The words of bs only depend on the word lists of bs. */
  lemma {:induction false} DocWordsFrame(bw: map<BlockId, seq<WordId>>, bw': map<BlockId, seq<WordId>>, bs: seq<BlockId>)
    requires forall x: BlockId :: x in bs ==> x in bw && x in bw' && bw'[x] == bw[x]
    ensures DocWords(bw', bs) == DocWords(bw, bs)
  {
    if bs != [] {
      DocWordsFrame(bw, bw', bs[..|bs| - 1]);
    }
  }

  /** A word of a block of bs is a word of the document. */
  lemma {:induction false} DocWordsHas(bw: map<BlockId, seq<WordId>>, bs: seq<BlockId>, b: BlockId, v: WordId)
    requires (forall x: BlockId :: x in bs ==> x in bw) && b in bs && v in bw[b]
    ensures v in DocWords(bw, bs)
  {
    var init := bs[..|bs| - 1];
    if bs[|bs| - 1] != b {
      assert b in init by {
        var j :| 0 <= j < |bs| && bs[j] == b;
        assert init[j] == b;
      }
      DocWordsHas(bw, init, b, v);
    }
  }

  /** The chars of the blocks bs are the chars of their words, read in order. */
  lemma {:induction false} BlocksCharsIsWords(bw: map<BlockId, seq<WordId>>, wc: map<WordId, seq<CharId>>, bs: seq<BlockId>)
    requires BlocksIn(bw, wc, bs)
    ensures forall v: WordId :: v in DocWords(bw, bs) ==> v in wc
    ensures BlocksChars(bw, wc, bs) == WordsChars(wc, DocWords(bw, bs))
  {
    if bs != [] {
      var init, b := bs[..|bs| - 1], bs[|bs| - 1];
      BlocksCharsIsWords(bw, wc, init);
      WordsCharsAppend(wc, DocWords(bw, init), bw[b]);
    }
  }

  // ---------------------------------------------------------------------------------
  // Constructors and list operations, as changes of the store.

  /** The k ids handed out one after the other from n on. */
  function Ids(n: nat, k: nat): (r: seq<nat>)
    ensures |r| == k && forall i :: 0 <= i < k ==> r[i] == n + i
  {
    seq(k, i => n + i)
  }

  /** `new Char(char, parent)` (char.js:13-18): the next id, holding `char || ''` and no props. */
  function AddChar(h: Heap, c: Option<string>, parent: Option<WordId>): Heap
  {
    h.(charValue := h.charValue[h.next := Chars.New(c)],
       charParent := h.charParent[h.next := parent],
       next := h.next + 1)
  }

  /** The three forms `new Word(text, parent)` accepts (word.js:18-31). */
  datatype WordText =
    | NoText                  // undefined, null or another falsy value that is not ''
    | Units(s: string)        // a string
    | Adopt(cs: seq<CharId>)  // an array of Chars, which becomes the word's own list

  /** What the string form makes one Char of: each `char`, and `''` for the empty string. */
  function UnitsOf(s: string): (r: seq<string>)
    ensures s == "" ==> r == [""]
    ensures s != "" ==> |r| == |s| && forall i :: 0 <= i < |s| ==> r[i] == [s[i]]
  {
    if s == "" then [""] else seq(|s|, i requires 0 <= i < |s| => [s[i]])
  }

  /** The Chars made for the units us, one after the other, with ids from m on. */
  function NewValues(cv: map<CharId, Char>, m: nat, us: seq<string>): map<CharId, Char>
    decreases |us|
  {
    if us == [] then cv else NewValues(cv, m, us[..|us| - 1])[m + |us| - 1 := Chars.New(Some(us[|us| - 1]))]
  }

  lemma {:induction false} NewValuesSnoc(cv: map<CharId, Char>, m: nat, us: seq<string>, u: string, k: nat)
    requires k == m + |us|
    ensures NewValues(cv, m, us + [u]) == NewValues(cv, m, us)[k := Chars.New(Some(u))]
  {
    var t := us + [u];
    assert t[..|t| - 1] == us;
  }

  /** The ids handed out in a row are all different, and all at least n. */
  lemma {:induction false} IdsDistinct(n: nat, k: nat)
    ensures Distinct(Ids(n, k)) && forall e: nat :: e in Ids(n, k) ==> n <= e < n + k
  {
  }

  lemma {:induction false} IdsSnoc(n: nat, k: nat)
    ensures Ids(n, k + 1) == Ids(n, k) + [n + k]
  {
  }

  /** The ids m..m+k-1, handed out in a row, all get the value p (their `parent`). */
  function NewParents<V>(pm: map<nat, V>, m: nat, k: nat, p: V): map<nat, V>
  {
    if k == 0 then pm else NewParents(pm, m, k - 1, p)[m + k - 1 := p]
  }

  /** One new Char per unit of us pushed onto the chars of word v, the first taking id h.next. */
  function PushedUnits(h: Heap, v: WordId, us: seq<string>): Heap
    requires v in h.wordChars
  {
    h.(wordChars := h.wordChars[v := h.wordChars[v] + Ids(h.next, |us|)],
       charValue := NewValues(h.charValue, h.next, us),
       charParent := NewParents(h.charParent, h.next, |us|, Some(v)),
       next := h.next + |us|)
  }

  /** Nothing pushed is the store as it was. */
  lemma {:induction false} PushedNone(h: Heap, v: WordId)
    requires v in h.wordChars
    ensures PushedUnits(h, v, []) == h
  {
    assert h.wordChars[v] + Ids(h.next, 0) == h.wordChars[v];
  }

  /** One more unit pushed is one more `new Char(unit, this)` pushed onto the word's list. */
  lemma {:induction false} PushedStep(h: Heap, v: WordId, us: seq<string>, u: string, s: Heap)
    requires v in h.wordChars && s == PushedUnits(h, v, us)
    ensures v in AddChar(s, Some(u), Some(v)).wordChars
    ensures var s1 := AddChar(s, Some(u), Some(v));
      s1.(wordChars := s1.wordChars[v := s1.wordChars[v] + [s.next]]) == PushedUnits(h, v, us + [u])
  {
    NewValuesSnoc(h.charValue, h.next, us, u, s.next);
    IdsSnoc(h.next, |us|);
    assert |us + [u]| == |us| + 1;
    assert h.wordChars[v] + Ids(h.next, |us|) + [s.next] == h.wordChars[v] + Ids(h.next, |us| + 1);
  }

  /**
   * `new Word(string, parent)` first takes the id and an empty list (word.js:16, 21), then
   * pushes one Char per unit (word.js:23-25).
   */
  lemma {:induction false} UnitsWordSteps(h: Heap, us: seq<string>, parent: Option<BlockId>, h1: Heap, r: Heap)
    requires h1 == h.(wordParent := h.wordParent[h.next := parent], wordChars := h.wordChars[h.next := []], next := h.next + 1)
    requires r == PushedUnits(h1, h.next, us)
    ensures r == WithUnits(h, us, parent)
  {
    var e: seq<CharId> := [];
    assert e + Ids(h.next + 1, |us|) == Ids(h.next + 1, |us|);
    assert h.wordChars[h.next := e][h.next := Ids(h.next + 1, |us|)] == h.wordChars[h.next := Ids(h.next + 1, |us|)];
  }

  /** The word h.next with one new Char per unit of us after it. */
  function WithUnits(h: Heap, us: seq<string>, parent: Option<BlockId>): Heap
  {
    var v := h.next;
    h.(wordParent := h.wordParent[v := parent],
       wordChars := h.wordChars[v := Ids(v + 1, |us|)],
       charValue := NewValues(h.charValue, v + 1, us),
       charParent := NewParents(h.charParent, v + 1, |us|, Some(v)),
       next := v + 1 + |us|)
  }

  /** `new Word(text, parent)` (word.js:15-32): the word takes the next id, the chars it makes follow. */
  function AddWord(h: Heap, t: WordText, parent: Option<BlockId>): Heap
  {
    var v := h.next;
    match t
    case NoText =>
      h.(wordParent := h.wordParent[v := parent], wordChars := h.wordChars[v := []], next := v + 1)
    case Units(s) => WithUnits(h, UnitsOf(s), parent)
    case Adopt(cs) => AdoptingWord(h, cs, parent)
  }

  /** The word h.next, holding the existing chars cs and made their parent. */
  function AdoptingWord(h: Heap, cs: seq<CharId>, parent: Option<BlockId>): Heap
  {
    var v := h.next;
    h.(wordParent := h.wordParent[v := parent],
       wordChars := h.wordChars[v := cs],
       charParent := SetAll(h.charParent, cs, Some(v)),
       next := v + 1)
  }

  /**
   * `new Block(words, parent)` (block.js:11-22); `attached` says whether `parent` is the
   * document.  Without words the block is the next id, then comes `new Char('')`, then the
   * `new Word([char], this)` that adopts it.
   */
  function AddBlock(h: Heap, words: Option<seq<WordId>>, attached: bool): Heap
  {
    if words.None? || words.value == [] then AddEmptyBlock(h, attached) else AddWordsBlock(h, words.value, attached)
  }

  /** A block with no words given: block b, Char b + 1 holding '', and Word b + 2 holding that Char. */
  function AddEmptyBlock(h: Heap, attached: bool): Heap
  {
    var b := h.next;
    var c, v := b + 1, b + 2;
    h.(blockAttached := h.blockAttached[b := attached],
       blockWords := h.blockWords[b := [v]],
       charValue := h.charValue[c := Chars.New(Some(""))],
       charParent := h.charParent[c := Some(v)],
       wordChars := h.wordChars[v := [c]],
       wordParent := h.wordParent[v := Some(b)],
       next := b + 3)
  }

  /** A block that adopts the words ws. */
  function AddWordsBlock(h: Heap, ws: seq<WordId>, attached: bool): Heap
  {
    var b := h.next;
    h.(blockAttached := h.blockAttached[b := attached],
       blockWords := h.blockWords[b := ws],
       wordParent := SetAll(h.wordParent, ws, Some(b)),
       next := b + 1)
  }

  /** The splice of `block.insertAfter(ref, word)` (block.js:40-49), before its `word.split()`. */
  function SplicedAfter(h: Heap, b: BlockId, ref: Option<WordId>, v: WordId): Heap
    requires b in h.blockWords
  {
    h.(wordParent := h.wordParent[v := Some(b)],
       blockWords := h.blockWords[b := InsertAfter(h.blockWords[b], ref, [v])])
  }

  /** The splice of `block.insertBefore(ref, word)` (block.js:67-74), before its `word.split()`. */
  function SplicedBefore(h: Heap, b: BlockId, ref: Option<WordId>, v: WordId): Heap
    requires b in h.blockWords
  {
    h.(wordParent := h.wordParent[v := Some(b)],
       blockWords := h.blockWords[b := InsertBefore(h.blockWords[b], ref, [v])])
  }

  /** `block.removeWordsAfter(ref)` (block.js:88-95): the block keeps the part up to ref. */
  function WordsCut(h: Heap, b: BlockId, ref: WordId): Heap
    requires b in h.blockWords
  {
    h.(blockWords := h.blockWords[b := CutAfter(h.blockWords[b], ref).0])
  }

  /** `document.insertAfter(ref, block)` with a block (document.js:131-141). */
  function BlockInserted(h: Heap, ref: Option<BlockId>, b: BlockId): Heap
  {
    h.(blockAttached := h.blockAttached[b := true], blocks := InsertAfter(h.blocks, ref, [b]))
  }

  /** `document.removeBlock(block)` (document.js:148-154). */
  function BlockRemoved(h: Heap, b: BlockId): Heap
  {
    if b in h.blocks then h.(blocks := RemoveFirst(h.blocks, b), blockAttached := h.blockAttached[b := false])
    else h
  }

  /** The document `new Document()` builds (document.js:11-17) before any text is inserted. */
  function EmptyDocument(): Heap
  {
    Heap([0], [1], 1, map[0 := [2]], map[0 := true], map[2 := [1]], map[2 := Some(0)],
         map[1 := Chars.New(Some(""))], map[1 := Some(2)], 3)
  }

  /** The store before the first object exists. */
  function Nothing(): Heap
  {
    Heap([], [], 0, map[], map[], map[], map[], map[], map[], 0)
  }

  // ---------------------------------------------------------------------------------
  // What the constructors build, and that the store stays well formed.

  lemma {:induction false} NewValuesAt(cv: map<CharId, Char>, m: nat, us: seq<string>)
    ensures forall c: CharId :: c in NewValues(cv, m, us) <==> c in cv || m <= c < m + |us|
    ensures forall j :: 0 <= j < |us| ==> NewValues(cv, m, us)[m + j] == Chars.New(Some(us[j]))
    ensures forall c: CharId :: c in cv && c < m ==> NewValues(cv, m, us)[c] == cv[c]
    decreases |us|
  {
    if us != [] {
      var init := us[..|us| - 1];
      NewValuesAt(cv, m, init);
      forall j | 0 <= j < |us| - 1 ensures init[j] == us[j] { }
    }
  }

  /** The chars made one per unit of a non-empty string s read back as s. */
  lemma {:induction false} NewValuesText(cv: map<CharId, Char>, m: nat, s: string, k: nat)
    requires s != "" && k <= |s|
    ensures forall c: CharId :: c in Ids(m, k) ==> c in NewValues(cv, m, UnitsOf(s))
    ensures TextOf(NewValues(cv, m, UnitsOf(s)), Ids(m, k)) == s[..k]
  {
    var nv := NewValues(cv, m, UnitsOf(s));
    NewValuesAt(cv, m, UnitsOf(s));
    if k > 0 {
      NewValuesText(cv, m, s, k - 1);
      assert Ids(m, k)[..k - 1] == Ids(m, k - 1);
      assert nv[m + k - 1] == Chars.New(Some([s[k - 1]]));
      assert s[..k] == s[..k - 1] + [s[k - 1]];
    }
  }

  lemma {:induction false} NewParentsAt<V>(pm: map<nat, V>, m: nat, k: nat, p: V)
    ensures forall c: CharId :: c in NewParents(pm, m, k, p) <==> c in pm || m <= c < m + k
    ensures forall c: CharId :: m <= c < m + k ==> NewParents(pm, m, k, p)[c] == p
    ensures forall c: CharId :: c in pm && !(m <= c < m + k) ==> NewParents(pm, m, k, p)[c] == pm[c]
  {
    if k > 0 {
      NewParentsAt(pm, m, k - 1, p);
    }
  }

  lemma {:induction false} AddCharKeeps(h: Heap, c: Option<string>, parent: Option<WordId>)
    requires WellFormed(h) && (parent.Some? ==> parent.value in h.wordChars)
    ensures h.next !in h.charValue
    ensures WellFormed(AddChar(h, c, parent))
  {
  }

  /** The word takes the next id and its parent; no other word changes (word.js:15-16). */
  lemma {:induction false} AddWordFresh(h: Heap, t: WordText, parent: Option<BlockId>)
    requires WellFormed(h)
    ensures var r, v := AddWord(h, t, parent), h.next;
      && v !in h.wordChars && v in r.wordChars && v in r.wordParent && r.wordParent[v] == parent
      && (forall w :: w in h.wordChars ==> w in r.wordChars && r.wordChars[w] == h.wordChars[w])
      && (forall w :: w in h.wordParent ==> w in r.wordParent && r.wordParent[w] == h.wordParent[w])
  {
  }

  /** Without text the word has no chars (word.js:18-19). */
  lemma {:induction false} AddWordNoText(h: Heap, parent: Option<BlockId>)
    ensures h.next in AddWord(h, NoText, parent).wordChars
    ensures AddWord(h, NoText, parent).wordChars[h.next] == []
  {
  }

  /**
   * With a string the word gets one fresh Char per `char`, or one empty Char for '',
   * each holding its unit and having this word as parent (word.js:20-25).
   */
  lemma {:induction false} AddWordUnits(h: Heap, s: string, parent: Option<BlockId>)
    requires WellFormed(h)
    ensures var r, v := AddWord(h, Units(s), parent), h.next;
      && v in r.wordChars && r.wordChars[v] == Ids(h.next + 1, |UnitsOf(s)|)
      && forall i :: 0 <= i < |UnitsOf(s)| ==>
           && h.next + 1 + i !in h.charValue && h.next + 1 + i in r.charValue && h.next + 1 + i in r.charParent
           && r.charValue[h.next + 1 + i] == Chars.New(Some(UnitsOf(s)[i]))
           && r.charParent[h.next + 1 + i] == Some(v)
  {
    var us := UnitsOf(s);
    NewValuesAt(h.charValue, h.next + 1, us);
    NewParentsAt(h.charParent, h.next + 1, |us|, Some(h.next));
  }

  /** With an array the word adopts it as-is and becomes the parent of every element (word.js:26-30). */
  lemma {:induction false} AddWordAdopt(h: Heap, cs: seq<CharId>, parent: Option<BlockId>)
    ensures var r, v := AddWord(h, Adopt(cs), parent), h.next;
      && v in r.wordChars && r.wordChars[v] == cs
      && (forall c: CharId :: c in cs ==> c in r.charParent && r.charParent[c] == Some(v))
      && (forall c: CharId :: c in h.charParent && c !in cs ==> c in r.charParent && r.charParent[c] == h.charParent[c])
  {
    SetAllAt(h.charParent, cs, Some(h.next));
  }

  lemma {:induction false} AddWordKeeps(h: Heap, t: WordText, parent: Option<BlockId>)
    requires WellFormed(h)
    requires parent.Some? ==> parent.value in h.blockWords
    requires t.Adopt? ==> forall c: CharId :: c in t.cs ==> c in h.charValue
    ensures WellFormed(AddWord(h, t, parent))
  {
    match t
    case NoText =>
    case Units(s) => AddWordUnitsKeep(h, s, parent);
    case Adopt(cs) => AddWordAdoptKeeps(h, cs, parent);
  }

  lemma {:induction false} AddWordUnitsKeep(h: Heap, s: string, parent: Option<BlockId>)
    requires WellFormed(h)
    requires parent.Some? ==> parent.value in h.blockWords
    ensures WellFormed(AddWord(h, Units(s), parent))
  {
    UnitsKeep(h, UnitsOf(s), parent);
  }

  lemma {:induction false} UnitsKeep(h: Heap, us: seq<string>, parent: Option<BlockId>)
    requires WellFormed(h)
    requires parent.Some? ==> parent.value in h.blockWords
    ensures WellFormed(WithUnits(h, us, parent))
  {
    var v := h.next;
    NewValuesAt(h.charValue, v + 1, us);
    NewParentsAt(h.charParent, v + 1, |us|, Some(v));
    WordWithCharsKeeps(h, WithUnits(h, us, parent), parent);
  }

  /** A new word h.next, its new chars between it and r.next, and nothing else changed. */
  lemma {:induction false} WordWithCharsKeeps(h: Heap, r: Heap, parent: Option<BlockId>)
    requires WellFormed(h)
    requires parent.Some? ==> parent.value in h.blockWords
    requires h.next < r.next
    requires r.blocks == h.blocks && r.chars == h.chars
    requires r.blockWords == h.blockWords && r.blockAttached == h.blockAttached
    requires h.next in r.wordChars && r.wordChars == h.wordChars[h.next := r.wordChars[h.next]]
    requires r.wordParent == h.wordParent[h.next := parent]
    requires forall c: CharId :: c in r.wordChars[h.next] ==> h.next < c < r.next
    requires forall c: CharId :: c in r.charValue <==> c in h.charValue || h.next < c < r.next
    requires forall c: CharId :: c in r.charParent <==> c in h.charParent || h.next < c < r.next
    requires forall c: CharId :: c in r.charParent ==> r.charParent[c] == Some(h.next) || (c in h.charParent && r.charParent[c] == h.charParent[c])
    ensures WellFormed(r)
  {
  }

  lemma {:induction false} AddWordAdoptKeeps(h: Heap, cs: seq<CharId>, parent: Option<BlockId>)
    requires WellFormed(h)
    requires parent.Some? ==> parent.value in h.blockWords
    requires forall c: CharId :: c in cs ==> c in h.charValue
    ensures WellFormed(AddWord(h, Adopt(cs), parent))
  {
    SetAllAt(h.charParent, cs, Some(h.next));
  }

  /**
   * The constructor (block.js:14-21): without words, or with none, the block gets one new
   * word holding one new empty Char; otherwise it adopts the list and becomes each word's parent.
   */
  lemma {:induction false} AddBlockForms(h: Heap, words: Option<seq<WordId>>, attached: bool)
    requires WellFormed(h)
    ensures var r, b := AddBlock(h, words, attached), h.next;
      && b !in h.blockWords && b in r.blockWords && b in r.blockAttached && r.blockAttached[b] == attached
      && (forall x: nat :: x in h.blockWords ==> x in r.blockWords && r.blockWords[x] == h.blockWords[x])
      && (words.None? || words.value == [] ==>
            && |r.blockWords[b]| == 1
            && var v := r.blockWords[b][0];
            && v !in h.wordChars && v in r.wordChars && v in r.wordParent && r.wordParent[v] == Some(b)
            && |r.wordChars[v]| == 1 && r.wordChars[v][0] in r.charValue && r.wordChars[v][0] in r.charParent
            && r.wordChars[v][0] !in h.charValue
            && r.charValue[r.wordChars[v][0]] == Chars.New(Some(""))
            && r.charParent[r.wordChars[v][0]] == Some(v))
      && (words.Some? && words.value != [] ==>
            && r.blockWords[b] == words.value
            && forall v: WordId :: v in words.value ==> v in r.wordParent && r.wordParent[v] == Some(b))
  {
    if words.Some? && words.value != [] {
      SetAllAt(h.wordParent, words.value, Some(h.next));
    }
  }

  lemma {:induction false} AddBlockKeeps(h: Heap, words: Option<seq<WordId>>, attached: bool)
    requires WellFormed(h)
    requires words.Some? ==> forall v: WordId :: v in words.value ==> v in h.wordChars
    ensures WellFormed(AddBlock(h, words, attached))
  {
    if words.Some? && words.value != [] {
      AddBlockWordsKeeps(h, words.value, attached);
    } else {
      AddBlockEmptyKeeps(h, words, attached);
    }
  }

  lemma {:induction false} AddBlockWordsKeeps(h: Heap, ws: seq<WordId>, attached: bool)
    requires WellFormed(h) && ws != []
    requires forall v: WordId :: v in ws ==> v in h.wordChars
    ensures WellFormed(AddBlock(h, Some(ws), attached))
  {
    SetAllAt(h.wordParent, ws, Some(h.next));
  }

  /**
   * Without words the block is built in three steps: the block takes the next id, then
   * `new Char('')` and the `new Word([char], this)` that adopts it (block.js:14-15).
   */
  lemma {:induction false} AddBlockEmptySteps(h: Heap, attached: bool, h1: Heap, c: CharId, h2: Heap, v: WordId, h3: Heap, r: Heap)
    requires h1 == h.(blockAttached := h.blockAttached[h.next := attached], next := h.next + 1)
    requires c == h1.next && h2 == AddChar(h1, Some(""), None)
    requires v == h2.next && h3 == AddWord(h2, Adopt([c]), Some(h.next))
    requires r == h3.(blockWords := h3.blockWords[h.next := [v]])
    ensures r == AddEmptyBlock(h, attached)
  {
    var b := h.next;
    assert c == b + 1 && v == b + 2;
    assert h3 == AdoptingWord(h2, [c], Some(b));
    assert h3.charParent == h.charParent[c := Some(v)] by {
      assert SetAll(h2.charParent, [c], Some(v)) == h2.charParent[c := Some(v)] by {
        assert [c][1..] == [];
      }
      assert h2.charParent == h.charParent[c := None];
    }
    assert h3.charValue == h.charValue[c := Chars.New(Some(""))];
    assert h3.wordChars == h.wordChars[v := [c]] && h3.wordParent == h.wordParent[v := Some(b)];
    assert h3.blockAttached == h.blockAttached[b := attached] && h3.next == b + 3;
  }

  lemma {:induction false} AddBlockEmptyKeeps(h: Heap, words: Option<seq<WordId>>, attached: bool)
    requires WellFormed(h) && (words.None? || words.value == [])
    ensures WellFormed(AddBlock(h, words, attached))
  {
    var r := AddEmptyBlock(h, attached);
    assert AddBlock(h, words, attached) == r;
    EmptyBlockKeeps(h, r, h.next, h.next + 2, h.next + 1);
  }

  lemma {:induction false} EmptyBlockKeeps(h: Heap, r: Heap, b: BlockId, v: WordId, c: CharId)
    requires WellFormed(h) && b == h.next && c == b + 1 && v == b + 2 && r.next == b + 3
    requires r.blocks == h.blocks && r.chars == h.chars && r.blockAttached.Keys == h.blockAttached.Keys + {b}
    requires r.blockWords == h.blockWords[b := [v]] && r.wordChars == h.wordChars[v := [c]]
    requires r.charParent == h.charParent[c := Some(v)] && r.wordParent == h.wordParent[v := Some(b)]
    requires r.charValue == h.charValue[c := Chars.New(Some(""))]
    ensures WellFormed(r)
  {
    assert KeysMatch(r) && Bounded(r) && ListsStored(r);
    EmptyBlockChildren(h, r, b, v, c);
    EmptyBlockParents(h, r, b, v, c);
  }

  lemma {:induction false} EmptyBlockChildren(h: Heap, r: Heap, b: BlockId, v: WordId, c: CharId)
    requires ChildrenStored(h)
    requires r.blockWords == h.blockWords[b := [v]] && r.wordChars == h.wordChars[v := [c]]
    requires r.charValue == h.charValue[c := Chars.New(Some(""))]
    ensures ChildrenStored(r)
  {
    forall x, y | x in r.blockWords && y in r.blockWords[x] ensures y in r.wordChars {
      if x != b {
        assert x in h.blockWords && y in h.blockWords[x];
      }
    }
    forall x, y | x in r.wordChars && y in r.wordChars[x] ensures y in r.charValue {
      if x != v {
        assert x in h.wordChars && y in h.wordChars[x];
      }
    }
  }

  lemma {:induction false} EmptyBlockParents(h: Heap, r: Heap, b: BlockId, v: WordId, c: CharId)
    requires ParentsStored(h)
    requires r.blockWords == h.blockWords[b := [v]] && r.wordChars == h.wordChars[v := [c]]
    requires r.charParent == h.charParent[c := Some(v)] && r.wordParent == h.wordParent[v := Some(b)]
    ensures ParentsStored(r)
  {
    forall x: nat | x in r.wordParent && r.wordParent[x].Some? ensures r.wordParent[x].value in r.blockWords {
      if x != v {
        assert x in h.wordParent;
      }
    }
    forall x: nat | x in r.charParent && r.charParent[x].Some? ensures r.charParent[x].value in r.wordChars {
      if x != c {
        assert x in h.charParent;
      }
    }
  }

  // ---------------------------------------------------------------------------------
  // The splices keep the store well formed and do what block.js and document.js say.

  lemma {:induction false} SplicedAfterKeeps(h: Heap, b: BlockId, ref: Option<WordId>, v: WordId)
    requires WellFormed(h) && b in h.blockWords && v in h.wordChars
    ensures WellFormed(SplicedAfter(h, b, ref, v))
  {
    InsertAfterMembers(h.blockWords[b], ref, [v]);
    RelistKeeps(h, b, InsertAfter(h.blockWords[b], ref, [v]), v);
  }

  lemma {:induction false} SplicedBeforeKeeps(h: Heap, b: BlockId, ref: Option<WordId>, v: WordId)
    requires WellFormed(h) && b in h.blockWords && v in h.wordChars
    ensures WellFormed(SplicedBefore(h, b, ref, v))
  {
    InsertBeforeMembers(h.blockWords[b], ref, [v]);
    RelistKeeps(h, b, InsertBefore(h.blockWords[b], ref, [v]), v);
  }

  /** Giving block b a new list of old words and v, with v now a child of b. */
  lemma {:induction false} RelistKeeps(h: Heap, b: BlockId, ws: seq<WordId>, v: WordId)
    requires WellFormed(h) && b in h.blockWords && v in h.wordChars
    requires forall x: WordId :: x in ws ==> x in h.blockWords[b] || x in [v]
    ensures WellFormed(h.(wordParent := h.wordParent[v := Some(b)], blockWords := h.blockWords[b := ws]))
  {
    var r := h.(wordParent := h.wordParent[v := Some(b)], blockWords := h.blockWords[b := ws]);
    assert KeysMatch(r) && Bounded(r) && ListsStored(r);
    forall x, y | x in r.blockWords && y in r.blockWords[x] ensures y in r.wordChars {
      if x != b {
        assert x in h.blockWords && y in h.blockWords[x];
      } else {
        assert y in ws;
      }
    }
    forall x: nat | x in r.wordParent && r.wordParent[x].Some? ensures r.wordParent[x].value in r.blockWords {
      if x != v {
        assert x in h.wordParent;
      }
    }
  }

  /**
   * A word not yet in the block lands right after ref, or last when ref is null or not
   * in the block (block.js:41-48), becomes the block's child, and taking it out again
   * gives back the old list.
   */
  lemma {:induction false} SplicedAfterLands(h: Heap, b: BlockId, ref: Option<WordId>, v: WordId)
    requires b in h.blockWords && v !in h.blockWords[b] && ref != Some(v)
    ensures var r, ws := SplicedAfter(h, b, ref, v), h.blockWords[b];
      && r.wordParent[v] == Some(b)
      && IndexOf(r.blockWords[b], v) == (if Find(ws, ref) == -1 then |ws| else Find(ws, ref) + 1)
      && RemoveFirst(r.blockWords[b], v) == ws
      && (forall x: nat :: x in h.blockWords && x != b ==> r.blockWords[x] == h.blockWords[x])
  {
    InsertAfterLands(h.blockWords[b], ref, v);
    RemoveUndoesInsertAfter(h.blockWords[b], ref, v);
  }

  /** The same for `insertBefore`: right before ref, or first (block.js:68-73). */
  lemma {:induction false} SplicedBeforeLands(h: Heap, b: BlockId, ref: Option<WordId>, v: WordId)
    requires b in h.blockWords && v !in h.blockWords[b]
    ensures var r, ws := SplicedBefore(h, b, ref, v), h.blockWords[b];
      && r.wordParent[v] == Some(b)
      && IndexOf(r.blockWords[b], v) == (if Find(ws, ref) == -1 then 0 else Find(ws, ref))
      && RemoveFirst(r.blockWords[b], v) == ws
      && (forall x: nat :: x in h.blockWords && x != b ==> r.blockWords[x] == h.blockWords[x])
  {
    InsertBeforeLands(h.blockWords[b], ref, v);
    RemoveUndoesInsertBefore(h.blockWords[b], ref, v);
  }

  /**
   * `removeWordsAfter(ref)` (block.js:88-95): the block keeps its words up to and including
   * ref, the removed ones are exactly the rest; when ref is not in the block, or is last,
   * nothing is removed.
   */
  lemma {:induction false} WordsCutSplits(h: Heap, b: BlockId, ref: WordId)
    requires b in h.blockWords
    ensures var r, ws, removed := WordsCut(h, b, ref), h.blockWords[b], CutAfter(h.blockWords[b], ref).1;
      && r.blockWords[b] + removed == ws
      && (removed == [] <==> ref !in ws || (ws[|ws| - 1] == ref && ref !in ws[..|ws| - 1]))
      && (removed != [] ==> r.blockWords[b][|r.blockWords[b]| - 1] == ref)
      && (forall x: nat :: x in h.blockWords && x != b ==> r.blockWords[x] == h.blockWords[x])
  {
    CutAfterNothing(h.blockWords[b], ref);
  }

  lemma {:induction false} WordsCutKeeps(h: Heap, b: BlockId, ref: WordId)
    requires WellFormed(h) && b in h.blockWords
    ensures WellFormed(WordsCut(h, b, ref))
  {
    var ws := h.blockWords[b];
    var cut := CutAfter(ws, ref);
    assert forall x: nat :: x in cut.0 ==> x in cut.0 + cut.1;
  }

  lemma {:induction false} BlockInsertedKeeps(h: Heap, ref: Option<BlockId>, b: BlockId)
    requires WellFormed(h) && b in h.blockWords
    ensures WellFormed(BlockInserted(h, ref, b))
  {
    var bs := InsertAfter(h.blocks, ref, [b]);
    InsertAfterElems(h.blocks, ref, [b]);
    assert forall x: nat :: x in bs ==> x in multiset(bs);
  }

  lemma {:induction false} BlockRemovedKeeps(h: Heap, b: BlockId)
    requires WellFormed(h)
    ensures WellFormed(BlockRemoved(h, b))
  {
    if b in h.blocks {
      var bs := RemoveFirst(h.blocks, b);
      assert forall x: nat :: x in bs ==> x in multiset(bs);
    }
  }

  /**
   * `document.insertAfter(ref, block)` then `document.removeBlock(block)` (document.js:131-154)
   * gives the old block list back, and the block lands after ref or last.
   */
  lemma {:induction false} BlockRemovedUndoesInserted(h: Heap, ref: Option<BlockId>, b: BlockId)
    requires b !in h.blocks && ref != Some(b)
    ensures IndexOf(BlockInserted(h, ref, b).blocks, b)
      == (if Find(h.blocks, ref) == -1 then |h.blocks| else Find(h.blocks, ref) + 1)
    ensures BlockRemoved(BlockInserted(h, ref, b), b).blocks == h.blocks
    ensures BlockRemoved(BlockInserted(h, ref, b), b).blockAttached[b] == false
  {
    InsertAfterLands(h.blocks, ref, b);
    RemoveUndoesInsertAfter(h.blocks, ref, b);
  }

  /**
   * `document.removeBlock(block)` takes a block it holds out of the list, keeping the others in
   * order, and clears its parent; any other block leaves the store as it was (document.js:148-154).
   */
  lemma {:induction false} BlockRemovedFacts(h: Heap, b: BlockId)
    ensures b !in h.blocks ==> BlockRemoved(h, b) == h
    ensures b in h.blocks ==>
      var r, i := BlockRemoved(h, b), IndexOf(h.blocks, b);
      && r.blocks == h.blocks[..i] + h.blocks[i + 1..]
      && b in r.blockAttached && !r.blockAttached[b]
      && r.(blocks := h.blocks, blockAttached := h.blockAttached) == h
  {
    if b in h.blocks {
      RemoveFirstSlices(h.blocks, b);
    }
  }

  /**
   * `new Document()` (document.js:11-17): one attached block holding one word holding the
   * empty terminator char, which is the whole char list and the tail; its text is empty.
   */
  lemma {:induction false} EmptyDocumentFacts()
    ensures var h := EmptyDocument();
      && WellFormed(h) && Flatten(h) == h.chars == [h.tail] && |h.blocks| == 1
      && h.blockAttached[h.blocks[0]] && DocString(h) == ""
  {
    EmptyDocumentWellFormed();
    EmptyDocumentFlat();
    EmptyDocumentText();
  }

  lemma {:induction false} EmptyDocumentFlat()
    ensures WellFormed(EmptyDocument()) && Flatten(EmptyDocument()) == [1]
  {
    var h := EmptyDocument();
    EmptyDocumentWellFormed();
    assert WordsChars(h.wordChars, [2]) == [1] by {
      assert WordsChars(h.wordChars, []) == [];
    }
    assert BlocksChars(h.blockWords, h.wordChars, [0]) == [1] by {
      assert BlocksChars(h.blockWords, h.wordChars, []) == [];
    }
  }

  lemma {:induction false} EmptyDocumentText()
    ensures WellFormed(EmptyDocument()) && DocString(EmptyDocument()) == ""
  {
    var h := EmptyDocument();
    EmptyDocumentWellFormed();
    assert WordString(h, 2) == "" by {
      assert TextOf(h.charValue, []) == "";
    }
    assert WordsString(h, [2]) == "" by {
      assert WordsString(h, []) == "";
    }
    assert BlocksString(h, [0]) == "" by {
      assert BlocksString(h, []) == "";
    }
  }

  lemma {:induction false} EmptyDocumentWellFormed()
    ensures WellFormed(EmptyDocument())
  {
    var h := EmptyDocument();
    assert KeysMatch(h) && Bounded(h) && ListsStored(h);
    assert ChildrenStored(h);
    assert ParentsStored(h);
  }

  /** What the constructor of an empty Document builds (document.js:12-17). */
  lemma {:induction false} EmptyDocumentBuilt()
    ensures var h := AddBlock(Nothing(), None, true);
      && h.next == 3 && BlocksIn(h.blockWords, h.wordChars, [0])
      && BlocksChars(h.blockWords, h.wordChars, [0]) == [1]
      && h.(blocks := [0], chars := [1], tail := 1) == EmptyDocument()
  {
    var h := AddBlock(Nothing(), None, true);
    assert WordsChars(h.wordChars, [2]) == [1] by {
      assert WordsChars(h.wordChars, []) == [];
    }
    assert BlocksChars(h.blockWords, h.wordChars, [0]) == [1] by {
      assert BlocksChars(h.blockWords, h.wordChars, []) == [];
    }
  }
}
