/**
 * `insertCharsAt` next to the flat `chars` array.  The source splices the new chars into
 * the tree first and into `chars` last (document.js:82-99), trusting that the split the
 * tree splice ends in keeps every char where it was.  It does when the split makes new
 * words of one kind only; when it makes both kinds, word.js:147 reorders the tree and
 * `chars` no longer reads it (SplitText.SplitReorders).
 */
module InsertSync {
  import opened Wrappers
  import opened Seqs
  import opened WordScan
  import opened Tree
  import opened Words
  import opened Blocks
  import opened Documents
  import opened SplitFacts
  import opened WordOrder
  import opened SplitText
  import opened Sync
  import opened Shape

  /** The tree's chars without repeats, each parented by the word listing it; `chars` aside. */
  ghost predicate TreeAgrees(h: Heap)
  {
    WellFormed(h) && Distinct(Flatten(h)) && ParentsAgree(h)
  }

  /** A split gives the chars of each new word that word as parent, and touches no other parent. */
  lemma {:induction false} SplitCharParents(h: Heap, w: WordId)
    requires CanSplit(h, w) && PlanIn(h, w).Split?
    ensures SplitEffect(h, w).charParent == AdoptAll(h.charParent, h.next, NewRuns(PlanIn(h, w)))
    ensures SplitEffect(h, w).chars == h.chars
  {
    SplitHalves(h, w);
    var gs := SplitGroups(h, w);
    var h2 := SplitRuns(h, w);
    var b := h.wordParent[w].value;
    SplitRunsKeepsBlock(h, w);
    SplitRunsCharParents(h, w);
    if gs == [] {
      SplitTailNone(h2, b, w);
    } else {
      RegroupCharParents(h2, b, w, gs);
    }
  }

  /** The first half of a split gives each new word's chars that word as parent. */
  lemma {:induction false} SplitRunsCharParents(h: Heap, w: WordId)
    requires CanSplit(h, w) && PlanIn(h, w).Split?
    ensures SplitRuns(h, w).charParent == AdoptAll(h.charParent, h.next, NewRuns(PlanIn(h, w)))
    ensures SplitRuns(h, w).chars == h.chars
  {
  }

  /** The second half of a split moves words between blocks only. */
  lemma {:induction false} RegroupCharParents(h2: Heap, b: BlockId, w: WordId, gs: seq<seq<WordId>>)
    requires b in h2.blockWords && gs != []
    ensures Regroup(h2, b, w, gs).charParent == h2.charParent && Regroup(h2, b, w, gs).chars == h2.chars
  {
    var h3 := WordsCut(h2, b, w);
    assert Regroup(h2, b, w, gs) == Appended(WithBlocks(h3, b, gs), LastBlock(h3, b, gs), CutAfter(h2.blockWords[b], w).1);
  }

  /**
   * After a split, each word lists chars that have it as parent: the word keeps its first
   * run, and each new word adopted the run it holds (word.js:94-96, 122-124).
   */
  lemma {:induction false} FilledParentsAgree(wc: map<WordId, seq<CharId>>, cp: map<CharId, Option<WordId>>, w: WordId,
                                              first: seq<CharId>, m: nat, runs: seq<seq<CharId>>)
    requires forall v: WordId, c: CharId :: v in wc && c in wc[v] ==> c in cp && cp[c] == Some(v)
    requires w in wc && first + Concat(runs) == wc[w] && Distinct(wc[w])
    requires forall v: WordId :: v in wc ==> v < m
    ensures var F, P := Fill(wc[w := first], m, runs), AdoptAll(cp, m, runs);
      forall v: WordId, c: CharId :: v in F && c in F[v] ==> c in P && P[c] == Some(v)
  {
    var F, P := Fill(wc[w := first], m, runs), AdoptAll(cp, m, runs);
    DistinctRuns(first, runs);
    AdoptAllOwners(cp, m, runs);
    FillAt(wc[w := first], m, runs);
    forall v: WordId, c: CharId | v in F && c in F[v] ensures c in P && P[c] == Some(v) {
      if m <= v < m + |runs| {
        assert F[v] == runs[v - m];
      } else if v == w {
        assert c in wc[w];
      } else {
        assert v in wc && F[v] == wc[v];
        assert cp[c] == Some(v);
        forall j | 0 <= j < |runs| ensures c !in runs[j] {
          if c in runs[j] {
            ConcatHas(runs, j, c);
          }
        }
      }
    }
  }

  /**
   * A split that makes new words of one kind only keeps the tree's chars, their order and
   * their parents in agreement, and leaves `chars` alone.
   */
  lemma {:induction false} SplitAgrees(h: Heap, w: WordId)
    requires TreeAgrees(h) && CanSplit(h, w) && WordOrder.Placed(h, w)
    requires PlanIn(h, w).Split? ==> PlanIn(h, w).groups == [] || PlanIn(h, w).same == []
    ensures var r := SplitEffect(h, w);
      TreeAgrees(r) && Flatten(r) == Flatten(h) && r.chars == h.chars && r.charValue == h.charValue
  {
    if PlanIn(h, w).Split? {
      var p := PlanIn(h, w);
      SplitKeepsChars(h, w);
      SplitCharParents(h, w);
      SplitChars(h, w);
      PlanJoins(h, w);
      WordDistinct(h.blockWords, h.wordChars, h.blocks, h.wordParent[w].value, w);
      FilledParentsAgree(h.wordChars, h.charParent, w, p.first, h.next, NewRuns(p));
    }
  }

  // ---------------------------------------------------------------------------------
  // Where a char of `chars` sits in the tree

  /** Where the char at offset k of a synced, shaped document sits: in its parent word, at the matching place. */
  lemma {:induction false} CharSits(h: Heap, k: int) returns (w: WordId)
    requires Synced(h) && Shaped(h) && 0 <= k < |h.chars|
    ensures h.chars[k] in h.charParent && h.charParent[h.chars[k]] == Some(w)
    ensures WordOrder.Placed(h, w) && h.chars[k] in h.wordChars[w] && Distinct(h.wordChars[w])
    ensures h.chars == Around(h, w).0 + h.wordChars[w] + Around(h, w).1
    ensures |Around(h, w).0| + IndexOf(h.wordChars[w], h.chars[k]) == k
  {
    var c := h.chars[k];
    var b, v := InBlocks(h.blockWords, h.wordChars, h.blocks, c);
    w := v;
    WordDistinct(h.blockWords, h.wordChars, h.blocks, b, w);
    BlocksCharsIsWords(h.blockWords, h.wordChars, h.blocks);
    var A, B := Around(h, w).0, Around(h, w).1;
    var j := IndexOf(h.wordChars[w], c);
    assert (A + h.wordChars[w] + B)[|A| + j] == c;
  }

  /** Giving the placed word w a new list, and changing no other word, replaces its part of the tree's chars. */
  lemma {:induction false} ReplacedFlatten(h: Heap, r: Heap, w: WordId)
    requires WordOrder.Placed(h, w) && WellFormed(r) && r.blocks == h.blocks && r.blockWords == h.blockWords
    requires w in r.wordChars && r.wordChars == h.wordChars[w := r.wordChars[w]]
    ensures Flatten(r) == Around(h, w).0 + r.wordChars[w] + Around(h, w).1
  {
    AroundFacts(h, w);
    var dw := DocWords(h.blockWords, h.blocks);
    BlocksCharsIsWords(r.blockWords, r.wordChars, r.blocks);
    ReplacedWords(h.wordChars, r.wordChars, dw, w);
  }

  /** The chars of a list of words without repeats, once the one word w gets a new list. */
  lemma {:induction false} ReplacedWords(wc: map<WordId, seq<CharId>>, wc': map<WordId, seq<CharId>>, dw: seq<WordId>, w: WordId)
    requires w in dw && Distinct(dw) && (forall v: WordId :: v in dw ==> v in wc) && w in wc'
    requires wc' == wc[w := wc'[w]]
    ensures var i := IndexOf(dw, w);
      WordsChars(wc', dw) == WordsChars(wc, dw[..i]) + wc'[w] + WordsChars(wc, dw[i + 1..])
  {
    var i := IndexOf(dw, w);
    AroundSplit(wc', dw, w);
    assert forall q :: i < q < |dw| ==> dw[q] != w;
    WordsCharsFrame(wc, wc', dw[..i]);
    WordsCharsFrame(wc, wc', dw[i + 1..]);
  }

  // ---------------------------------------------------------------------------------
  // The splice of new chars into a word, before the split

  /** The chars `insertCharsAt` makes (document.js:71-73) are fresh, and the tree does not list them yet. */
  lemma {:induction false} WithCharsFresh(h: Heap, us: seq<string>)
    requires WellFormed(h)
    ensures var h1, ids := WithChars(h, us), Ids(h.next, |us|);
      && WellFormed(h1) && Distinct(ids) && h1.next == h.next + |us|
      && (forall c: CharId :: c in ids ==> c in h1.charValue && c !in h.charValue)
      && (forall c: CharId :: c in h.charValue ==> c in h1.charValue)
      && (forall c: CharId :: c in h.charParent ==> c in h1.charParent && h1.charParent[c] == h.charParent[c])
  {
    WithCharsKeeps(h, us);
    IdsDistinct(h.next, |us|);
    NewParentsAt(h.charParent, h.next, |us|, None);
    NewValuesAt(h.charValue, h.next, us);
  }

  /** Cut at offset |A| + j, A + ws + B is A + ws[..j] and ws[j..] + B. */
  lemma {:induction false} SpliceGlue(s: seq<CharId>, A: seq<CharId>, ws: seq<CharId>, B: seq<CharId>, j: nat, ids: seq<CharId>)
    requires s == A + ws + B && j <= |ws|
    ensures |A| + j <= |s|
    ensures A + (ws[..j] + ids + ws[j..]) + B == s[..|A| + j] + ids + s[|A| + j..]
  {
    assert s[..|A| + j] == A + ws[..j];
    assert s[|A| + j..] == ws[j..] + B;
  }

  /**
   * The fresh chars ids spliced into the placed word w at position j, and made its children,
   * land at offset |before w| + j of the tree's chars, which stay without repeats and in
   * agreement with their parents (word.js:174-181 and 202-208).
   */
  lemma {:induction false} SpliceAgrees(h: Heap, h1: Heap, ids: seq<CharId>, w: WordId, j: nat, hp: Heap, k: int)
    requires Synced(h) && WordOrder.Placed(h, w) && j <= |h.wordChars[w]| && k == |Around(h, w).0| + j
    requires h1.wordChars == h.wordChars
    requires Distinct(ids) && forall c: CharId :: c in ids ==> c !in h.charValue
    requires forall c: CharId :: c in h.charParent ==> c in h1.charParent && h1.charParent[c] == h.charParent[c]
    requires WellFormed(hp) && hp.blocks == h.blocks && hp.blockWords == h.blockWords && hp.wordParent == h.wordParent
    requires hp.charParent == SetAll(h1.charParent, ids, Some(w))
    requires hp.wordChars == h.wordChars[w := h.wordChars[w][..j] + ids + h.wordChars[w][j..]]
    ensures TreeAgrees(hp) && WordOrder.Placed(hp, w)
    ensures 0 <= k <= |h.chars| && Flatten(hp) == h.chars[..k] + ids + h.chars[k..]
  {
    SpliceFlatten(h, ids, w, j, hp, k);
    SpliceParents(h, h1, ids, w, j, hp);
  }

  lemma {:induction false} SpliceFlatten(h: Heap, ids: seq<CharId>, w: WordId, j: nat, hp: Heap, k: int)
    requires Synced(h) && WordOrder.Placed(h, w) && j <= |h.wordChars[w]| && k == |Around(h, w).0| + j
    requires Distinct(ids) && forall c: CharId :: c in ids ==> c !in h.charValue
    requires WellFormed(hp) && hp.blocks == h.blocks && hp.blockWords == h.blockWords
    requires hp.wordChars == h.wordChars[w := h.wordChars[w][..j] + ids + h.wordChars[w][j..]]
    ensures 0 <= k <= |h.chars| && Flatten(hp) == h.chars[..k] + ids + h.chars[k..] && Distinct(Flatten(hp))
  {
    var ws, A, B := h.wordChars[w], Around(h, w).0, Around(h, w).1;
    BlocksCharsIsWords(h.blockWords, h.wordChars, h.blocks);
    ReplacedFlatten(h, hp, w);
    SpliceGlue(h.chars, A, ws, B, j, ids);
    DistinctSplice(h.chars, k, ids, h.charValue.Keys);
  }

  /** Fresh ids spliced into a list without repeats of known ids leave it without repeats. */
  lemma {:induction false} DistinctSplice(s: seq<CharId>, k: nat, ids: seq<CharId>, known: set<CharId>)
    requires k <= |s| && Distinct(s) && Distinct(ids) && (forall c: CharId :: c in s ==> c in known)
    requires forall c: CharId :: c in ids ==> c !in known
    ensures Distinct(s[..k] + ids + s[k..])
  {
    assert s[..k] + s[k..] == s;
    DistinctInsert(s[..k], ids, s[k..]);
  }

  lemma {:induction false} SpliceParents(h: Heap, h1: Heap, ids: seq<CharId>, w: WordId, j: nat, hp: Heap)
    requires Synced(h) && w in h.wordChars && j <= |h.wordChars[w]|
    requires h1.wordChars == h.wordChars
    requires forall c: CharId :: c in ids ==> c !in h.charValue
    requires forall c: CharId :: c in h.charParent ==> c in h1.charParent && h1.charParent[c] == h.charParent[c]
    requires hp.charParent == SetAll(h1.charParent, ids, Some(w))
    requires hp.wordChars == h1.wordChars[w := h.wordChars[w][..j] + ids + h.wordChars[w][j..]]
    ensures ParentsAgree(hp)
  {
    var ws := h.wordChars[w];
    SetAllAt(h1.charParent, ids, Some(w));
    assert ws == ws[..j] + ws[j..];
    forall v: WordId, c: CharId | v in hp.wordChars && c in hp.wordChars[v] ensures c in hp.charParent && hp.charParent[c] == Some(v) {
      if v == w {
        if c !in ids {
          assert c in ws;
        }
      } else {
        assert c in h.wordChars[v] && c in h.charValue;
      }
    }
  }

  /** Once the tree agrees with its parents again, `chars` set to the tree's chars makes the document synced. */
  lemma {:induction false} AgreesSynced(r: Heap, cs: seq<CharId>)
    requires TreeAgrees(r) && cs == Flatten(r)
    ensures Synced(r.(chars := cs))
  {
    forall c | c in cs ensures c in r.charValue {
      var b, v := InBlocks(r.blockWords, r.wordChars, r.blocks, c);
    }
  }

  // ---------------------------------------------------------------------------------
  // The four places the new chars go

  /** The store right before the `split` that ends the placement (word.js:179-181, 206-208; block.js:40-48). */
  ghost function PreSplit(hs: Heap, ids: seq<CharId>, v: WordId, t: Target): Heap
    requires CanPlaceIn(hs, ids, v, t)
  {
    match t
    case BeforeNext(w, ref) => CharsAddedBefore(hs, w, ref, ids)
    case FrontOfNext(w) => CharsAddedBefore(hs, w, None, ids)
    case NewWordAfter(b, p) => SplicedAfter(hs, b, Some(p), v)
    case AfterPrev(w, ref) => CharsAddedAfter(hs, w, Some(ref), ids)
  }

  /** The word that `split` runs on: the new word, or the word the chars went into. */
  function SplitWord(t: Target, v: WordId): WordId
  {
    if t.NewWordAfter? then v else t.word
  }

  /** Placing the chars is the splice followed by the split of SplitWord. */
  lemma {:induction false} PlacedInSplits(hs: Heap, ids: seq<CharId>, v: WordId, t: Target)
    requires CanPlaceIn(hs, ids, v, t)
    ensures CanSplit(PreSplit(hs, ids, v, t), SplitWord(t, v))
    ensures PlacedIn(hs, ids, v, t) == SplitEffect(PreSplit(hs, ids, v, t), SplitWord(t, v))
  {
  }

  /**
   * The chars made for the units us, spliced into the placed word w at position j, land at
   * offset |before w| + j of the tree's chars, which stay without repeats and in agreement
   * with their parents.
   */
  lemma {:induction false} FreshSplice(h: Heap, us: seq<string>, w: WordId, j: nat, hp: Heap, index: int)
    requires Synced(h) && WordOrder.Placed(h, w) && j <= |h.wordChars[w]|
    requires WellFormed(hp) && SplicedAt(h, us, w, j, hp) && index == |Around(h, w).0| + j
    ensures 0 <= index <= |h.chars|
    ensures TreeAgrees(hp) && WordOrder.Placed(hp, w) && Flatten(hp) == h.chars[..index] + Ids(h.next, |us|) + h.chars[index..]
  {
    var h1, ids := WithChars(h, us), Ids(h.next, |us|);
    WithCharsFresh(h, us);
    assert hp.blocks == h.blocks && hp.blockWords == h.blockWords && hp.wordParent == h.wordParent;
    assert hp.charParent == SetAll(h1.charParent, ids, Some(w));
    assert hp.wordChars == h.wordChars[w := h.wordChars[w][..j] + ids + h.wordChars[w][j..]];
    SpliceAgrees(h, h1, ids, w, j, hp, index);
  }

  /** The store hp is h with the fresh chars made for us spliced into w's list at position j, each parented by w. */
  ghost predicate SplicedAt(h: Heap, us: seq<string>, w: WordId, j: nat, hp: Heap)
    requires w in h.wordChars && j <= |h.wordChars[w]|
  {
    && hp.blocks == h.blocks && hp.blockWords == h.blockWords && hp.wordParent == h.wordParent
    && hp.charParent == SetAll(WithChars(h, us).charParent, Ids(h.next, |us|), Some(w))
    && hp.wordChars == h.wordChars[w := h.wordChars[w][..j] + Ids(h.next, |us|) + h.wordChars[w][j..]]
  }

  /** Putting the fresh chars in front of ref is splicing them in at j, when that is where ref's splice lands. */
  lemma {:induction false} AddedBeforeSpliced(h: Heap, us: seq<string>, w: WordId, ref: Option<CharId>, j: nat)
    requires w in h.wordChars && j <= |h.wordChars[w]|
    requires InsertBefore(h.wordChars[w], ref, Ids(h.next, |us|)) == h.wordChars[w][..j] + Ids(h.next, |us|) + h.wordChars[w][j..]
    ensures w in WithChars(h, us).wordChars && SplicedAt(h, us, w, j, CharsAddedBefore(WithChars(h, us), w, ref, Ids(h.next, |us|)))
  {
  }

  /** Putting the fresh chars after ref is splicing them in at j, when that is where ref's splice lands. */
  lemma {:induction false} AddedAfterSpliced(h: Heap, us: seq<string>, w: WordId, ref: Option<CharId>, j: nat)
    requires w in h.wordChars && j <= |h.wordChars[w]|
    requires InsertAfter(h.wordChars[w], ref, Ids(h.next, |us|)) == h.wordChars[w][..j] + Ids(h.next, |us|) + h.wordChars[w][j..]
    ensures w in WithChars(h, us).wordChars && SplicedAt(h, us, w, j, CharsAddedAfter(WithChars(h, us), w, ref, Ids(h.next, |us|)))
  {
  }

  /** Where BeforeNext and FrontOfNext come from: a char at index, in the word w (document.js:78-79). */
  lemma {:induction false} NextCharIn(h: Heap, index: int, w: WordId)
    requires TargetOf(h, index).Some? && (TargetOf(h, index).value.BeforeNext? || TargetOf(h, index).value.FrontOfNext?)
    requires TargetOf(h, index).value.word == w
    ensures 0 <= index < |h.chars| && h.chars[index] in h.charParent && h.charParent[h.chars[index]] == Some(w)
    ensures TargetOf(h, index).value.BeforeNext? ==> TargetOf(h, index).value.ref == Some(h.chars[index])
    ensures TargetOf(h, index).value.FrontOfNext? ==>
      0 < index && (h.chars[index - 1] !in h.charParent || h.charParent[h.chars[index - 1]] != Some(w))
  {
  }

  /** Where AfterPrev comes from: a char before index, in the word w (document.js:78-79). */
  lemma {:induction false} PrevCharIn(h: Heap, index: int, w: WordId, ref: CharId)
    requires TargetOf(h, index) == Some(AfterPrev(w, ref))
    ensures 0 < index <= |h.chars| && ref == h.chars[index - 1] && ref in h.charParent && h.charParent[ref] == Some(w)
  {
  }

  /** The new chars go in front of the char at index, which sits in w (document.js:82-84). */
  lemma {:induction false} BeforeNextSplice(h: Heap, index: int, us: seq<string>, w: WordId, ref: Option<CharId>)
    requires Synced(h) && Shaped(h) && TargetOf(h, index) == Some(BeforeNext(w, ref))
    ensures var h1, ids := WithChars(h, us), Ids(h.next, |us|);
      && 0 <= index <= |h.chars| && w in h1.wordChars
      && var hp := CharsAddedBefore(h1, w, ref, ids);
      && TreeAgrees(hp) && WordOrder.Placed(hp, w) && Flatten(hp) == h.chars[..index] + ids + h.chars[index..]
  {
    NextCharIn(h, index, w);
    var v := CharSits(h, index);
    var ws, ids := h.wordChars[w], Ids(h.next, |us|);
    var j := IndexOf(ws, h.chars[index]);
    assert InsertBefore(ws, ref, ids) == ws[..j] + ids + ws[j..];
    WordSpliceBefore(h, us, w, ref, j, index);
  }

  /**
   * The new chars go at the front of the word of the char at index, which the char before
   * index is not in (document.js:85-87): that char is the first of its word.
   */
  lemma {:induction false} FrontOfNextSplice(h: Heap, index: int, us: seq<string>, w: WordId)
    requires Synced(h) && Shaped(h) && TargetOf(h, index) == Some(FrontOfNext(w))
    ensures var h1, ids := WithChars(h, us), Ids(h.next, |us|);
      && 0 <= index <= |h.chars| && w in h1.wordChars
      && var hp := CharsAddedBefore(h1, w, None, ids);
      && TreeAgrees(hp) && WordOrder.Placed(hp, w) && Flatten(hp) == h.chars[..index] + ids + h.chars[index..]
  {
    NextCharIn(h, index, w);
    var v := CharSits(h, index);
    FrontSplice(h, index, us, w);
  }

  /** The splice at the front of w, when the char at index is w's and the one before is not. */
  lemma {:induction false} FrontSplice(h: Heap, index: int, us: seq<string>, w: WordId)
    requires Synced(h) && WordOrder.Placed(h, w) && 0 < index < |h.chars|
    requires h.chars == Around(h, w).0 + h.wordChars[w] + Around(h, w).1
    requires h.chars[index] in h.wordChars[w] && |Around(h, w).0| + IndexOf(h.wordChars[w], h.chars[index]) == index
    requires h.chars[index - 1] !in h.charParent || h.charParent[h.chars[index - 1]] != Some(w)
    ensures var h1, ids := WithChars(h, us), Ids(h.next, |us|);
      && 0 <= index <= |h.chars| && w in h1.wordChars
      && var hp := CharsAddedBefore(h1, w, None, ids);
      && TreeAgrees(hp) && WordOrder.Placed(hp, w) && Flatten(hp) == h.chars[..index] + ids + h.chars[index..]
  {
    var ws, ids := h.wordChars[w], Ids(h.next, |us|);
    FirstOfWord(h, index, w);
    assert InsertBefore(ws, None, ids) == ws[..0] + ids + ws[0..];
    WordSpliceBefore(h, us, w, None, 0, index);
  }

  /** A char of `chars` whose predecessor has another parent is the first char of its word. */
  lemma {:induction false} FirstOfWord(h: Heap, index: int, w: WordId)
    requires Synced(h) && WordOrder.Placed(h, w) && 0 < index < |h.chars|
    requires h.chars == Around(h, w).0 + h.wordChars[w] + Around(h, w).1
    requires h.chars[index] in h.wordChars[w] && |Around(h, w).0| + IndexOf(h.wordChars[w], h.chars[index]) == index
    requires h.chars[index - 1] !in h.charParent || h.charParent[h.chars[index - 1]] != Some(w)
    ensures IndexOf(h.wordChars[w], h.chars[index]) == 0
  {
  }

  /** The new chars go right after the char before index, which sits in w (document.js:92-94). */
  lemma {:induction false} AfterPrevSplice(h: Heap, index: int, us: seq<string>, w: WordId, ref: CharId)
    requires Synced(h) && Shaped(h) && TargetOf(h, index) == Some(AfterPrev(w, ref))
    ensures var h1, ids := WithChars(h, us), Ids(h.next, |us|);
      && 0 <= index <= |h.chars| && w in h1.wordChars
      && var hp := CharsAddedAfter(h1, w, Some(ref), ids);
      && TreeAgrees(hp) && WordOrder.Placed(hp, w) && Flatten(hp) == h.chars[..index] + ids + h.chars[index..]
  {
    PrevCharIn(h, index, w, ref);
    var v := CharSits(h, index - 1);
    var ws, ids := h.wordChars[w], Ids(h.next, |us|);
    InsertAfterFound(ws, ref, ids);
    WordSpliceAfter(h, us, w, ref, IndexOf(ws, ref) + 1, index);
  }

  /** The fresh chars put in front of ref in the placed word w, at position j of its list. */
  lemma {:induction false} WordSpliceBefore(h: Heap, us: seq<string>, w: WordId, ref: Option<CharId>, j: nat, index: int)
    requires Synced(h) && WordOrder.Placed(h, w) && j <= |h.wordChars[w]|
    requires InsertBefore(h.wordChars[w], ref, Ids(h.next, |us|)) == h.wordChars[w][..j] + Ids(h.next, |us|) + h.wordChars[w][j..]
    requires index == |Around(h, w).0| + j
    ensures var h1, ids := WithChars(h, us), Ids(h.next, |us|);
      && 0 <= index <= |h.chars| && w in h1.wordChars
      && var hp := CharsAddedBefore(h1, w, ref, ids);
      && TreeAgrees(hp) && WordOrder.Placed(hp, w) && Flatten(hp) == h.chars[..index] + ids + h.chars[index..]
  {
    var h1, ids := WithChars(h, us), Ids(h.next, |us|);
    WithCharsKeeps(h, us);
    CharsAddedBeforeKeeps(h1, w, ref, ids);
    AddedBeforeSpliced(h, us, w, ref, j);
    FreshSplice(h, us, w, j, CharsAddedBefore(h1, w, ref, ids), index);
  }

  /** The fresh chars put after ref in the placed word w, at position j of its list. */
  lemma {:induction false} WordSpliceAfter(h: Heap, us: seq<string>, w: WordId, ref: CharId, j: nat, index: int)
    requires Synced(h) && WordOrder.Placed(h, w) && j <= |h.wordChars[w]|
    requires InsertAfter(h.wordChars[w], Some(ref), Ids(h.next, |us|)) == h.wordChars[w][..j] + Ids(h.next, |us|) + h.wordChars[w][j..]
    requires index == |Around(h, w).0| + j
    ensures var h1, ids := WithChars(h, us), Ids(h.next, |us|);
      && 0 <= index <= |h.chars| && w in h1.wordChars
      && var hp := CharsAddedAfter(h1, w, Some(ref), ids);
      && TreeAgrees(hp) && WordOrder.Placed(hp, w) && Flatten(hp) == h.chars[..index] + ids + h.chars[index..]
  {
    var h1, ids := WithChars(h, us), Ids(h.next, |us|);
    WithCharsKeeps(h, us);
    CharsAddedAfterKeeps(h1, w, Some(ref), ids);
    AddedAfterSpliced(h, us, w, Some(ref), j);
    FreshSplice(h, us, w, j, CharsAddedAfter(h1, w, Some(ref), ids), index);
  }

  /** Where NewWordAfter comes from: the char before index is in p, a word of block b, and no word holds a char at index. */
  lemma {:induction false} NewWordAt(h: Heap, index: int, b: BlockId, p: WordId)
    requires TargetOf(h, index) == Some(NewWordAfter(b, p))
    ensures 0 < index <= |h.chars| && h.chars[index - 1] in h.charParent && h.charParent[h.chars[index - 1]] == Some(p)
    ensures p in h.wordParent && h.wordParent[p] == Some(b)
    ensures index < |h.chars| ==> h.chars[index] !in h.charParent || h.charParent[h.chars[index]].None?
  {
  }

  /**
   * In a synced document every char of `chars` has a word, so a new word is only made at the
   * end, after the last char, which is the last char of its word p.
   */
  lemma {:induction false} NewWordAtEnd(h: Heap, index: int, b: BlockId, p: WordId)
    requires Synced(h) && Shaped(h) && TargetOf(h, index) == Some(NewWordAfter(b, p))
    ensures index == |h.chars| && WordOrder.Placed(h, p) && h.wordParent[p] == Some(b)
    ensures Around(h, p).1 == [] && h.chars == Around(h, p).0 + h.wordChars[p]
  {
    NewWordAt(h, index, b, p);
    if index < |h.chars| {
      var x := CharSits(h, index);
    }
    var v := CharSits(h, index - 1);
  }

  /** The store once the new word holding the new chars is made and spliced in after p (document.js:89-90, block.js:40-49). */
  ghost function NewWordStore(h: Heap, us: seq<string>, b: BlockId, p: WordId): Heap
    requires b in h.blockWords
  {
    var h1 := WithChars(h, us);
    SplicedAfter(AddWord(h1, Adopt(Ids(h.next, |us|)), None), b, Some(p), h1.next)
  }

  /** The new word lands right after p in the document, holding the new chars, and the store stays well formed. */
  lemma {:induction false} NewWordFlatten(h: Heap, us: seq<string>, b: BlockId, p: WordId)
    requires WordOrder.Placed(h, p) && h.wordParent[p] == Some(b)
    ensures var hp, v := NewWordStore(h, us, b, p), h.next + |us|;
      && WellFormed(hp) && WordOrder.Placed(hp, v)
      && Flatten(hp) == Around(h, p).0 + h.wordChars[p] + Ids(h.next, |us|) + Around(h, p).1
  {
    NewWordFields(h, us, b, p);
    NewWordTree(h, NewWordStore(h, us, b, p), b, p, h.next + |us|, Ids(h.next, |us|));
  }

  lemma {:induction false} NewWordTree(h: Heap, hp: Heap, b: BlockId, p: WordId, v: WordId, ids: seq<CharId>)
    requires WordOrder.Placed(h, p) && h.wordParent[p] == Some(b) && WellFormed(hp)
    requires forall x: WordId :: x in h.wordChars ==> x < v
    requires WordAdded(h, hp, b, p, v, ids)
    ensures WordOrder.Placed(hp, v) && Flatten(hp) == Around(h, p).0 + h.wordChars[p] + ids + Around(h, p).1
  {
    AroundFacts(h, p);
    NewWordOrder(h.blockWords, h.wordChars, h.blocks, b, p, v, ids);
    BlocksCharsIsWords(hp.blockWords, hp.wordChars, hp.blocks);
  }

  /** The lists of hp are those of h with the word v, holding ids, listed after p in b. */
  ghost predicate WordAdded(h: Heap, hp: Heap, b: BlockId, p: WordId, v: WordId, ids: seq<CharId>)
    requires b in h.blockWords
  {
    && hp.blocks == h.blocks && hp.blockWords == h.blockWords[b := InsertAfter(h.blockWords[b], Some(p), [v])]
    && hp.wordChars == h.wordChars[v := ids] && hp.wordParent == h.wordParent[v := Some(b)]
  }

  /** What making and splicing in the new word changes. */
  lemma {:induction false} NewWordFields(h: Heap, us: seq<string>, b: BlockId, p: WordId)
    requires WellFormed(h) && b in h.blockWords
    ensures var hp, v, ids := NewWordStore(h, us, b, p), h.next + |us|, Ids(h.next, |us|);
      && WordAdded(h, hp, b, p, v, ids)
      && hp.charParent == SetAll(WithChars(h, us).charParent, ids, Some(v))
      && hp.blockAttached == h.blockAttached
    ensures WellFormed(NewWordStore(h, us, b, p)) && forall x: WordId :: x in h.wordChars ==> x < h.next + |us|
  {
    NewWordStoreIs(h, us, b, p);
    NewWordWellFormed(h, us, b, p);
  }

  /** The fields of the store once the new word is made and spliced in. */
  lemma {:induction false} NewWordStoreIs(h: Heap, us: seq<string>, b: BlockId, p: WordId)
    requires b in h.blockWords
    ensures var hp, v := NewWordStore(h, us, b, p), h.next + |us|;
      && hp.blocks == h.blocks && hp.blockAttached == h.blockAttached && hp.next == v + 1
      && hp.blockWords == h.blockWords[b := InsertAfter(h.blockWords[b], Some(p), [v])]
      && hp.wordChars == h.wordChars[v := Ids(h.next, |us|)] && hp.wordParent == h.wordParent[v := Some(b)]
      && hp.charParent == SetAll(WithChars(h, us).charParent, Ids(h.next, |us|), Some(v))
  {
    var h1, ids := WithChars(h, us), Ids(h.next, |us|);
    var hs := AddWord(h1, Adopt(ids), None);
    AddWordFields(h1, ids, hs);
    SplicedAfterFields(hs, b, p, h1.next, NewWordStore(h, us, b, p));
  }

  lemma {:induction false} AddWordFields(h1: Heap, ids: seq<CharId>, hs: Heap)
    requires hs == AddWord(h1, Adopt(ids), None)
    ensures && hs.blocks == h1.blocks && hs.blockAttached == h1.blockAttached && hs.next == h1.next + 1
      && hs.blockWords == h1.blockWords && hs.wordChars == h1.wordChars[h1.next := ids]
      && hs.wordParent == h1.wordParent[h1.next := None] && hs.charParent == SetAll(h1.charParent, ids, Some(h1.next))
  {
  }

  lemma {:induction false} SplicedAfterFields(hs: Heap, b: BlockId, p: WordId, v: WordId, hp: Heap)
    requires b in hs.blockWords && hp == SplicedAfter(hs, b, Some(p), v)
    ensures && hp.blocks == hs.blocks && hp.blockAttached == hs.blockAttached && hp.next == hs.next
      && hp.blockWords == hs.blockWords[b := InsertAfter(hs.blockWords[b], Some(p), [v])]
      && hp.wordChars == hs.wordChars && hp.wordParent == hs.wordParent[v := Some(b)] && hp.charParent == hs.charParent
  {
  }

  lemma {:induction false} NewWordWellFormed(h: Heap, us: seq<string>, b: BlockId, p: WordId)
    requires WellFormed(h) && b in h.blockWords
    ensures WellFormed(NewWordStore(h, us, b, p))
  {
    var h1, ids := WithChars(h, us), Ids(h.next, |us|);
    WithCharsFresh(h, us);
    AddWordKeeps(h1, Adopt(ids), None);
    SplicedAfterKeeps(AddWord(h1, Adopt(ids), None), b, Some(p), h1.next);
  }

  /**
   * Listing the fresh word v right after p in block b puts v right after p among the
   * document's words, and its chars right after p's.
   */
  lemma {:induction false} NewWordOrder(bw: map<BlockId, seq<WordId>>, wc: map<WordId, seq<CharId>>, bs: seq<BlockId>,
                                        b: BlockId, p: WordId, v: WordId, ids: seq<CharId>)
    requires b in bs && Distinct(bs) && (forall x: BlockId :: x in bs ==> x in bw) && p in bw[b]
    requires var dw := DocWords(bw, bs); Distinct(dw) && forall x: WordId :: x in dw ==> x in wc && x < v
    ensures var bw', wc', dw := bw[b := InsertAfter(bw[b], Some(p), [v])], wc[v := ids], DocWords(bw, bs);
      && p in dw && (forall x: WordId :: x in DocWords(bw', bs) ==> x in wc')
      && Distinct(DocWords(bw', bs)) && v in bw'[b]
      && var i := IndexOf(dw, p);
      && WordsChars(wc', DocWords(bw', bs)) == WordsChars(wc, dw[..i]) + wc[p] + ids + WordsChars(wc, dw[i + 1..])
  {
    var bw', dw := bw[b := InsertAfter(bw[b], Some(p), [v])], DocWords(bw, bs);
    NewWordDocWords(bw, bs, b, p, v);
    var i := IndexOf(dw, p);
    NewWordChars(wc, dw, i, p, v, ids);
  }

  lemma {:induction false} NewWordDocWords(bw: map<BlockId, seq<WordId>>, bs: seq<BlockId>, b: BlockId, p: WordId, v: WordId)
    requires b in bs && Distinct(bs) && (forall x: BlockId :: x in bs ==> x in bw) && p in bw[b]
    requires Distinct(DocWords(bw, bs)) && v !in DocWords(bw, bs)
    ensures var bw', dw := bw[b := InsertAfter(bw[b], Some(p), [v])], DocWords(bw, bs);
      && p in dw && v in bw'[b] && Distinct(DocWords(bw', bs))
      && var i := IndexOf(dw, p); DocWords(bw', bs) == dw[..i] + [p] + [v] + dw[i + 1..]
  {
    var bw' := bw[b := InsertAfter(bw[b], Some(p), [v])];
    ListedAfter(bw, bs, b, p, v);
    InsertedAfterDistinct(DocWords(bw, bs), p, v);
    InsertAfterFound(bw[b], p, [v]);
  }

  /** p is among the document's words, and listing v after p in its block lists it after p there. */
  lemma {:induction false} ListedAfter(bw: map<BlockId, seq<WordId>>, bs: seq<BlockId>, b: BlockId, p: WordId, v: WordId)
    requires b in bs && Distinct(bs) && (forall x: BlockId :: x in bs ==> x in bw) && p in bw[b]
    requires Distinct(DocWords(bw, bs))
    ensures p in DocWords(bw, bs)
    ensures DocWords(bw[b := InsertAfter(bw[b], Some(p), [v])], bs) == InsertAfter(DocWords(bw, bs), Some(p), [v])
  {
    DocWordsSplit(bw, bs, b, bw[b]);
    ChainedOrder(bw, bs, b, p, [v]);
  }

  /** A fresh element put after p in a list without repeats sits right after p, and the list stays without repeats. */
  lemma {:induction false} InsertedAfterDistinct(dw: seq<WordId>, p: WordId, v: WordId)
    requires p in dw && Distinct(dw) && v !in dw
    ensures var i := IndexOf(dw, p);
      && InsertAfter(dw, Some(p), [v]) == dw[..i] + [p] + [v] + dw[i + 1..]
      && Distinct(InsertAfter(dw, Some(p), [v]))
  {
    var i := IndexOf(dw, p);
    var X, Y := dw[..i], dw[i + 1..];
    InsertedSplit(dw, p, [v]);
    assert dw == X + [p] + Y;
    DistinctInsert(X + [p], [v], Y);
  }

  lemma {:induction false} NewWordChars(wc: map<WordId, seq<CharId>>, dw: seq<WordId>, i: nat, p: WordId, v: WordId, ids: seq<CharId>)
    requires i < |dw| && dw[i] == p && forall x: WordId :: x in dw ==> x in wc && x < v
    ensures var wc' := wc[v := ids];
      && (forall x: WordId :: x in dw[..i] + [p] + [v] + dw[i + 1..] ==> x in wc')
      && WordsChars(wc', dw[..i] + [p] + [v] + dw[i + 1..]) == WordsChars(wc, dw[..i]) + wc[p] + ids + WordsChars(wc, dw[i + 1..])
  {
    var wc', X, Y := wc[v := ids], dw[..i], dw[i + 1..];
    assert forall x: WordId :: x in X ==> x in dw;
    assert forall x: WordId :: x in Y ==> x in dw;
    WordsCharsFour(wc', X, p, [v], Y);
    WordsCharsFrame(wc, wc', X);
    WordsCharsFrame(wc, wc', Y);
    assert [v][..0] == [];
  }

  /** The new word's chars have it as parent, and no other char changed parent. */
  lemma {:induction false} NewWordParents(h: Heap, us: seq<string>, b: BlockId, p: WordId)
    requires Synced(h) && b in h.blockWords
    ensures ParentsAgree(NewWordStore(h, us, b, p))
  {
    var hp, v := NewWordStore(h, us, b, p), h.next + |us|;
    NewWordStoreIs(h, us, b, p);
    assert v !in h.wordChars;
    WithCharsFresh(h, us);
    AdoptedParents(h, WithChars(h, us), hp, v, Ids(h.next, |us|));
  }

  lemma {:induction false} AdoptedParents(h: Heap, h1: Heap, hp: Heap, v: WordId, ids: seq<CharId>)
    requires Synced(h) && v !in h.wordChars
    requires forall c: CharId :: c in ids ==> c !in h.charValue
    requires forall c: CharId :: c in h.charParent ==> c in h1.charParent && h1.charParent[c] == h.charParent[c]
    requires hp.wordChars == h.wordChars[v := ids] && hp.charParent == SetAll(h1.charParent, ids, Some(v))
    ensures ParentsAgree(hp)
  {
    SetAllAt(h1.charParent, ids, Some(v));
    forall x: WordId, c: CharId | x in hp.wordChars && c in hp.wordChars[x] ensures c in hp.charParent && hp.charParent[c] == Some(x) {
      if x != v {
        assert c in h.wordChars[x] && c in h.charValue;
      }
    }
  }

  /**
   * A new word made for the new chars (document.js:88-91) lands at the end of a synced
   * document, right after p, the word of the last char.
   */
  lemma {:induction false} NewWordSplice(h: Heap, index: int, us: seq<string>, b: BlockId, p: WordId)
    requires Synced(h) && Shaped(h) && TargetOf(h, index) == Some(NewWordAfter(b, p))
    ensures var hp, ids := NewWordStore(h, us, b, p), Ids(h.next, |us|);
      && index == |h.chars| && b in h.blockWords
      && TreeAgrees(hp) && WordOrder.Placed(hp, h.next + |us|) && Flatten(hp) == h.chars[..index] + ids + h.chars[index..]
  {
    NewWordAtEnd(h, index, b, p);
    NewWordEnd(h, us, b, p);
    assert h.chars[..index] == h.chars && h.chars[index..] == [];
  }

  lemma {:induction false} NewWordEnd(h: Heap, us: seq<string>, b: BlockId, p: WordId)
    requires Synced(h) && WordOrder.Placed(h, p) && h.wordParent[p] == Some(b)
    requires Around(h, p).1 == [] && h.chars == Around(h, p).0 + h.wordChars[p]
    ensures var hp, ids := NewWordStore(h, us, b, p), Ids(h.next, |us|);
      && b in h.blockWords && TreeAgrees(hp) && WordOrder.Placed(hp, h.next + |us|) && Flatten(hp) == h.chars + ids + []
  {
    var ids := Ids(h.next, |us|);
    NewWordFlatten(h, us, b, p);
    NewWordParents(h, us, b, p);
    WithCharsFresh(h, us);
    assert forall c: CharId :: c in h.chars ==> c in h.charValue;
    FreshAppended(h.chars, ids, h.charValue.Keys);
  }

  /** Fresh ids after a list without repeats of known ids leave it without repeats. */
  lemma {:induction false} FreshAppended(cs: seq<CharId>, ids: seq<CharId>, known: set<CharId>)
    requires Distinct(cs) && Distinct(ids) && (forall c: CharId :: c in cs ==> c in known)
    requires forall c: CharId :: c in ids ==> c !in known
    ensures Distinct(cs + ids + [])
  {
    assert cs + [] == cs;
    DistinctInsert(cs, ids, []);
  }

  // ---------------------------------------------------------------------------------
  // insertCharsAt keeps the document in step when its split makes one kind of word

  /** A split plan that makes new words of one kind only: all in the word's block, or all in new blocks. */
  predicate OneKind(p: Plan<CharId>)
  {
    p.Split? ==> p.groups == [] || p.same == []
  }

  /**
   * `insertCharsAt(index, str)` is defined, and the split that ends it makes new words of
   * one kind only, or none.
   */
  ghost predicate SplitsOneWay(h: Heap, index: int, str: string)
  {
    && CanInsertCharsAt(h, index, str)
    && (str != "" ==>
          var t, h1 := TargetOf(h, index).value, WithChars(h, UnitsOf(str));
          var ids := Ids(h.next, |UnitsOf(str)|);
          var hp, w := PreSplit(Staged(h1, ids, t), ids, h1.next, t), SplitWord(t, h1.next);
          w in hp.wordChars && OneKind(PlanIn(hp, w)))
  }

  /** Whichever place document.js:82-95 picks, the splice puts the new chars at index in the tree's chars. */
  lemma {:induction false} TargetSplice(h: Heap, index: int, str: string)
    requires Synced(h) && Shaped(h) && CanInsertCharsAt(h, index, str) && str != ""
    ensures var t, h1 := TargetOf(h, index).value, WithChars(h, UnitsOf(str));
      var ids := Ids(h.next, |UnitsOf(str)|);
      var hp, w := PreSplit(Staged(h1, ids, t), ids, h1.next, t), SplitWord(t, h1.next);
      && 0 <= index <= |h.chars| && TreeAgrees(hp) && WordOrder.Placed(hp, w)
      && Flatten(hp) == h.chars[..index] + ids + h.chars[index..]
  {
    var t := TargetOf(h, index).value;
    if t.NewWordAfter? {
      NewWordTarget(h, index, str, t.block, t.prev);
    } else {
      CharsTarget(h, index, str, t);
    }
  }

  lemma {:induction false} CharsTarget(h: Heap, index: int, str: string, t: Target)
    requires Synced(h) && Shaped(h) && TargetOf(h, index) == Some(t) && CanPlace(h, str, t) && !t.NewWordAfter?
    ensures var h1 := WithChars(h, UnitsOf(str));
      var ids := Ids(h.next, |UnitsOf(str)|);
      var hp, w := PreSplit(Staged(h1, ids, t), ids, h1.next, t), SplitWord(t, h1.next);
      && 0 <= index <= |h.chars| && TreeAgrees(hp) && WordOrder.Placed(hp, w)
      && Flatten(hp) == h.chars[..index] + ids + h.chars[index..]
  {
    var us := UnitsOf(str);
    match t
    case BeforeNext(w, ref) => BeforeNextSplice(h, index, us, w, ref);
    case FrontOfNext(w) => FrontOfNextSplice(h, index, us, w);
    case AfterPrev(w, ref) => AfterPrevSplice(h, index, us, w, ref);
  }

  lemma {:induction false} NewWordTarget(h: Heap, index: int, str: string, b: BlockId, p: WordId)
    requires Synced(h) && Shaped(h) && TargetOf(h, index) == Some(NewWordAfter(b, p)) && CanPlace(h, str, NewWordAfter(b, p))
    ensures var t, h1 := NewWordAfter(b, p), WithChars(h, UnitsOf(str));
      var ids := Ids(h.next, |UnitsOf(str)|);
      var hp, w := PreSplit(Staged(h1, ids, t), ids, h1.next, t), SplitWord(t, h1.next);
      && 0 <= index <= |h.chars| && TreeAgrees(hp) && WordOrder.Placed(hp, w)
      && Flatten(hp) == h.chars[..index] + ids + h.chars[index..]
  {
    NewWordSplice(h, index, UnitsOf(str), b, p);
  }

  /**
   * `insertCharsAt(index, str)` keeps a synced, shaped document synced when its split makes
   * new words of one kind only: the tree splice and the `chars` splice (document.js:82-99)
   * put the new chars in the same place, and such a split moves no char (word.js:117-157).
   */
  lemma {:induction false} InsertCharsAtSynced(h: Heap, index: int, str: string)
    requires Synced(h) && Shaped(h) && SplitsOneWay(h, index, str)
    ensures Synced(InsertCharsAtEffect(h, index, str))
  {
    if str != "" {
      var t, h1 := TargetOf(h, index).value, WithChars(h, UnitsOf(str));
      var ids := Ids(h.next, |UnitsOf(str)|);
      var hs := Staged(h1, ids, t);
      var hp, w := PreSplit(hs, ids, h1.next, t), SplitWord(t, h1.next);
      TargetSplice(h, index, str);
      InsertCharsAtSteps(h, index, str, t, h1, ids);
      PlacedInSplits(hs, ids, h1.next, t);
      SplitAgrees(hp, w);
      AgreesSynced(SplitEffect(hp, w), h.chars[..index] + ids + h.chars[index..]);
    }
  }

  /** The splice before the split keeps the shape: it adds chars to a word, or a fresh word after p. */
  lemma {:induction false} PreSplitShaped(h: Heap, index: int, str: string)
    requires Synced(h) && Shaped(h) && CanInsertCharsAt(h, index, str) && str != ""
    ensures var t, h1 := TargetOf(h, index).value, WithChars(h, UnitsOf(str));
      var ids := Ids(h.next, |UnitsOf(str)|);
      var hp, w := PreSplit(Staged(h1, ids, t), ids, h1.next, t), SplitWord(t, h1.next);
      Shaped(hp) && CanSplit(hp, w) && WordOrder.Placed(hp, w)
  {
    var us := UnitsOf(str);
    var t, h1 := TargetOf(h, index).value, WithChars(h, us);
    var ids := Ids(h.next, |us|);
    var hs := Staged(h1, ids, t);
    var hp := PreSplit(hs, ids, h1.next, t);
    TargetSplice(h, index, str);
    InsertCharsAtSteps(h, index, str, t, h1, ids);
    PlacedInSplits(hs, ids, h1.next, t);
    if t.NewWordAfter? {
      NewWordPlacedShaped(h, index, us, t.block, t.prev);
    } else {
      CharsPlacedShaped(h, hs, ids, h1.next, t);
    }
  }

  /** Chars spliced into a word leave the blocks, their lists and the words' parents alone. */
  lemma {:induction false} CharsPlacedShaped(h: Heap, hs: Heap, ids: seq<CharId>, v: WordId, t: Target)
    requires Shaped(h) && !t.NewWordAfter? && CanPlaceIn(hs, ids, v, t) && WellFormed(PreSplit(hs, ids, v, t))
    requires hs.blocks == h.blocks && hs.blockWords == h.blockWords
    requires hs.wordParent == h.wordParent && hs.blockAttached == h.blockAttached
    ensures Shaped(PreSplit(hs, ids, v, t))
  {
    ShapedFrame(h, PreSplit(hs, ids, v, t));
  }

  /** The new word lands after p, the last word, in p's block. */
  lemma {:induction false} NewWordPlacedShaped(h: Heap, index: int, us: seq<string>, b: BlockId, p: WordId)
    requires Synced(h) && Shaped(h) && TargetOf(h, index) == Some(NewWordAfter(b, p))
    ensures Shaped(NewWordStore(h, us, b, p))
  {
    NewWordAtEnd(h, index, b, p);
    NewWordStoreShaped(h, us, b, p);
  }

  lemma {:induction false} NewWordStoreShaped(h: Heap, us: seq<string>, b: BlockId, p: WordId)
    requires Shaped(h) && WordOrder.Placed(h, p) && h.wordParent[p] == Some(b)
    ensures Shaped(NewWordStore(h, us, b, p))
  {
    NewWordFields(h, us, b, p);
    NewWordShaped(h, NewWordStore(h, us, b, p), b, p, h.next + |us|);
  }

  /**
   * `insertCharsAt(index, str)` keeps the shape: the splice adds chars to a word or a fresh
   * word after p, and the split that follows keeps the shape (word.js:74-159).
   */
  lemma {:induction false} InsertCharsAtShaped(h: Heap, index: int, str: string)
    requires Synced(h) && Shaped(h) && SplitsOneWay(h, index, str)
    ensures Shaped(InsertCharsAtEffect(h, index, str))
  {
    InsertCharsAtSynced(h, index, str);
    if str != "" {
      var t, h1 := TargetOf(h, index).value, WithChars(h, UnitsOf(str));
      var ids := Ids(h.next, |UnitsOf(str)|);
      var hs := Staged(h1, ids, t);
      var hp, w := PreSplit(hs, ids, h1.next, t), SplitWord(t, h1.next);
      InsertCharsAtSteps(h, index, str, t, h1, ids);
      PreSplitShaped(h, index, str);
      PlacedInSplits(hs, ids, h1.next, t);
      SplitShaped(hp, w);
      ShapedFrame(SplitEffect(hp, w), InsertCharsAtEffect(h, index, str));
    }
  }

  /**
   * `new Document(text)` (document.js:11-22) is synced and shaped when the split of its one
   * word makes new words of one kind.
   */
  lemma {:induction false} NewDocumentSynced(text: string)
    requires SplitsOneWay(EmptyDocument(), 0, text)
    ensures Synced(NewDocument(text)) && Shaped(NewDocument(text))
  {
    EmptyDocumentSynced();
    EmptyDocumentShaped();
    if text != "" {
      InsertCharsAtSynced(EmptyDocument(), 0, text);
      InsertCharsAtShaped(EmptyDocument(), 0, text);
    }
  }
}
