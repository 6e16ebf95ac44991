/**
 * The scanning pass of `Word.split` (src/js/word.js:75-131) on its own: it walks the
 * word's chars once, closes a run at every space or newline that is not the last char,
 * and sorts the runs into the run this word keeps, the runs that become new words of
 * the same block, and the groups of runs that become new blocks (one per newline).
 */
module WordScan {
  import opened Wrappers
  import opened Util
  import opened Seqs

  /** The accumulators of the `forEach`: currentChars, thisWordChars, thisBlockWords, nextBlock, newBlocks. */
  datatype ScanState<T> = ScanState(
    current: seq<T>,
    first: Option<seq<T>>,
    same: seq<seq<T>>,
    next: Option<seq<seq<T>>>,
    groups: seq<seq<seq<T>>>)

  function Start<T>(): ScanState<T>
  {
    ScanState([], None, [], None, [])
  }

  /** One turn of the `forEach` body on char x of kind k; `last` is `index === array.length - 1`. */
  function Step<T>(st: ScanState<T>, x: T, k: Kind, last: bool): ScanState<T>
  {
    var cur := st.current + [x];
    if last || k == Plain then st.(current := cur)
    else
      var closed :=
        if st.first.None? then st.(first := Some(cur))
        else if st.next.None? then st.(same := st.same + [cur])
        else st.(next := Some(st.next.value + [cur]));
      if k == NewLine then
        closed.(current := [],
                groups := if closed.next.Some? then closed.groups + [closed.next.value] else closed.groups,
                next := Some([]))
      else closed.(current := [])
  }

  /** The accumulators after the first i chars. */
  function ScanTo<T>(xs: seq<T>, kind: T -> Kind, i: nat): ScanState<T>
    requires i <= |xs|
  {
    if i == 0 then Start()
    else Step(ScanTo(xs, kind, i - 1), xs[i - 1], kind(xs[i - 1]), i - 1 == |xs| - 1)
  }

  /** What the scan decides: leave the word alone, or split it this way. */
  datatype Plan<T> =
    | NoSplit
    | Split(first: seq<T>, same: seq<seq<T>>, groups: seq<seq<seq<T>>>)

  /** Lines 111-131: give up when nothing closed, else place the lingering chars and block. */
  function Finish<T>(st: ScanState<T>): Plan<T>
  {
    if st.first.None? then NoSplit
    else
      var same := if |st.current| > 0 && st.next.None? then st.same + [st.current] else st.same;
      var next := if |st.current| > 0 && st.next.Some? then Some(st.next.value + [st.current]) else st.next;
      Split(st.first.value, same, if next.Some? then st.groups + [next.value] else st.groups)
  }

  function PlanOf<T>(xs: seq<T>, kind: T -> Kind): Plan<T>
  {
    Finish(ScanTo(xs, kind, |xs|))
  }

  /** No separator anywhere but possibly in the last place. */
  ghost predicate Normal<T>(r: seq<T>, kind: T -> Kind)
  {
    forall j :: 0 <= j < |r| - 1 ==> kind(r[j]) == Plain
  }

  /** A run closed by a separator: non-empty, normal, and ending in a separator. */
  ghost predicate Closed<T>(r: seq<T>, kind: T -> Kind)
  {
    r != [] && Normal(r, kind) && kind(r[|r| - 1]) != Plain
  }

  /** The number of newlines among the first i chars that are not the last char. */
  function NewLinesBefore<T>(xs: seq<T>, kind: T -> Kind, i: nat): nat
    requires i <= |xs|
  {
    if i == 0 then 0
    else NewLinesBefore(xs, kind, i - 1) + (if i - 1 < |xs| - 1 && kind(xs[i - 1]) == NewLine then 1 else 0)
  }

  /** The number of newlines that end a run: one per new block. */
  function NewLineCount<T>(xs: seq<T>, kind: T -> Kind): nat
  {
    NewLinesBefore(xs, kind, |xs|)
  }

  function FirstList<T>(st: ScanState<T>): seq<seq<T>>
  {
    if st.first.Some? then [st.first.value] else []
  }

  function NextList<T>(st: ScanState<T>): seq<seq<T>>
  {
    if st.next.Some? then st.next.value else []
  }

  /** Every closed run in the order the scan closed them. */
  function Runs<T>(st: ScanState<T>): seq<seq<T>>
  {
    FirstList(st) + st.same + Concat(st.groups) + NextList(st)
  }

  function LastOf<T>(r: seq<T>): T
    requires r != []
  {
    r[|r| - 1]
  }

  /** What holds of the accumulators after the first i of the n = |xs| chars. */
  ghost predicate Inv<T>(xs: seq<T>, kind: T -> Kind, i: nat, st: ScanState<T>)
    requires i <= |xs|
  {
    && Concat(Runs(st)) + st.current == xs[..i]
    && (st.first.None? ==> st.same == [] && st.next.None?)
    && (st.next.None? ==> st.groups == [])
    && (forall r :: r in Runs(st) ==> Closed(r, kind))
    && (forall j :: 0 <= j < |st.current| && (i < |xs| || j < |st.current| - 1) ==> kind(st.current[j]) == Plain)
    && (forall g :: g in st.groups ==> g != [])
    && (i == |xs| && i > 0 ==> st.current != [])
    && |st.groups| + (if st.next.Some? then 1 else 0) == NewLinesBefore(xs, kind, i)
    && (st.first.None? <==> forall j :: 0 <= j < i && j < |xs| - 1 ==> kind(xs[j]) == Plain)
    && (st.first.Some? && st.first.value != [] && kind(LastOf(st.first.value)) == NewLine ==> st.same == [] && st.next.Some?)
    && (st.first.Some? && st.first.value != [] && kind(LastOf(st.first.value)) == Space && st.next.Some? ==> st.same != [])
  }

  lemma {:induction false} StepKeepsInv<T>(xs: seq<T>, kind: T -> Kind, i: nat, st: ScanState<T>)
    requires i < |xs| && Inv(xs, kind, i, st)
    ensures Inv(xs, kind, i + 1, Step(st, xs[i], kind(xs[i]), i == |xs| - 1))
  {
    var x, k, last := xs[i], kind(xs[i]), i == |xs| - 1;
    TakeOneMore(xs, i);
    if last || k == Plain {
      StepPlain(xs, kind, i, st);
    } else if st.first.None? {
      StepFirst(xs, kind, i, st);
    } else if st.next.None? {
      StepSame(xs, kind, i, st);
    } else {
      StepGroup(xs, kind, i, st);
    }
  }

  lemma {:induction false} StepPlain<T>(xs: seq<T>, kind: T -> Kind, i: nat, st: ScanState<T>)
    requires i < |xs| && Inv(xs, kind, i, st)
    requires i == |xs| - 1 || kind(xs[i]) == Plain
    ensures Inv(xs, kind, i + 1, Step(st, xs[i], kind(xs[i]), i == |xs| - 1))
  {
    assert Step(st, xs[i], kind(xs[i]), i == |xs| - 1) == st.(current := st.current + [xs[i]]);
    PlainKeepsInv(xs, kind, i, st);
  }

  /** A char that closes no run only grows the current run. */
  lemma {:induction false} PlainKeepsInv<T>(xs: seq<T>, kind: T -> Kind, i: nat, st: ScanState<T>)
    requires i < |xs| && Inv(xs, kind, i, st)
    requires i == |xs| - 1 || kind(xs[i]) == Plain
    ensures Inv(xs, kind, i + 1, st.(current := st.current + [xs[i]]))
  {
    var st' := st.(current := st.current + [xs[i]]);
    assert Runs(st') == Runs(st);
    PlainText(xs, i, Concat(Runs(st)), st.current);
    PlainCurrent(xs, kind, i, st.current);
    PlainCount(xs, kind, i);
  }

  lemma {:induction false} PlainText<T>(xs: seq<T>, i: nat, done: seq<T>, cur: seq<T>)
    requires i < |xs| && done + cur == xs[..i]
    ensures done + (cur + [xs[i]]) == xs[..i + 1]
  {
    TakeOneMore(xs, i);
  }

  lemma {:induction false} PlainCurrent<T>(xs: seq<T>, kind: T -> Kind, i: nat, cur: seq<T>)
    requires i < |xs| && (i == |xs| - 1 || kind(xs[i]) == Plain)
    requires forall j :: 0 <= j < |cur| && (i < |xs| || j < |cur| - 1) ==> kind(cur[j]) == Plain
    ensures var c := cur + [xs[i]];
      forall j :: 0 <= j < |c| && (i + 1 < |xs| || j < |c| - 1) ==> kind(c[j]) == Plain
  {
    var c := cur + [xs[i]];
    forall j | 0 <= j < |c| && (i + 1 < |xs| || j < |c| - 1) ensures kind(c[j]) == Plain {
      if j < |cur| { assert c[j] == cur[j]; }
    }
  }

  lemma {:induction false} PlainCount<T>(xs: seq<T>, kind: T -> Kind, i: nat)
    requires i < |xs| && (i == |xs| - 1 || kind(xs[i]) == Plain)
    ensures NewLinesBefore(xs, kind, i + 1) == NewLinesBefore(xs, kind, i)
    ensures (forall j :: 0 <= j < i + 1 && j < |xs| - 1 ==> kind(xs[j]) == Plain)
       <==> (forall j :: 0 <= j < i && j < |xs| - 1 ==> kind(xs[j]) == Plain)
  {
  }

  lemma {:induction false} StepFirst<T>(xs: seq<T>, kind: T -> Kind, i: nat, st: ScanState<T>)
    requires i < |xs| - 1 && Inv(xs, kind, i, st)
    requires kind(xs[i]) != Plain && st.first.None?
    ensures Inv(xs, kind, i + 1, Step(st, xs[i], kind(xs[i]), i == |xs| - 1))
  {
    var cur := st.current + [xs[i]];
    var st' := Step(st, xs[i], kind(xs[i]), false);
    assert Runs(st) == [];
    assert st.current == xs[..i];
    assert xs[..i + 1] == cur;
    assert Closed(cur, kind);
    assert st'.first == Some(cur) && st'.same == [] && st'.groups == [] && st'.current == [];
    assert Runs(st') == [cur];
    assert Concat([cur]) == cur;
    assert LastOf(cur) == xs[i];
  }

  lemma {:induction false} StepSame<T>(xs: seq<T>, kind: T -> Kind, i: nat, st: ScanState<T>)
    requires i < |xs| - 1 && Inv(xs, kind, i, st)
    requires kind(xs[i]) != Plain && st.first.Some? && st.next.None?
    ensures Inv(xs, kind, i + 1, Step(st, xs[i], kind(xs[i]), i == |xs| - 1))
  {
    var cur := st.current + [xs[i]];
    var st' := Step(st, xs[i], kind(xs[i]), false);
    assert st.groups == [];
    assert Closed(cur, kind);
    assert st'.same == st.same + [cur] && st'.groups == [] && st'.current == [] && st'.first == st.first;
    assert Runs(st) == [st.first.value] + st.same;
    assert Runs(st') == Runs(st) + [cur];
    ConcatAppend(Runs(st), [cur]);
    assert Concat([cur]) == cur;
    TakeOneMore(xs, i);
  }

  lemma {:induction false} StepGroup<T>(xs: seq<T>, kind: T -> Kind, i: nat, st: ScanState<T>)
    requires i < |xs| - 1 && Inv(xs, kind, i, st)
    requires kind(xs[i]) != Plain && st.first.Some? && st.next.Some?
    ensures Inv(xs, kind, i + 1, Step(st, xs[i], kind(xs[i]), i == |xs| - 1))
  {
    var cur := st.current + [xs[i]];
    CloseRun(xs, kind, i, st.current);
    GroupRuns(st, xs[i], kind(xs[i]));
    CloseText(xs, i, Runs(st), st.current);
    CloseRuns(Runs(st), cur, kind);
    CloseCount(xs, kind, i);
  }

  /** The current run, closed by char i, which is a separator that is not the last char. */
  lemma {:induction false} CloseRun<T>(xs: seq<T>, kind: T -> Kind, i: nat, cur: seq<T>)
    requires i < |xs| - 1 && kind(xs[i]) != Plain
    requires forall j :: 0 <= j < |cur| && (i < |xs| || j < |cur| - 1) ==> kind(cur[j]) == Plain
    ensures Closed(cur + [xs[i]], kind)
  {
    var c := cur + [xs[i]];
    forall j | 0 <= j < |c| - 1 ensures kind(c[j]) == Plain {
      assert c[j] == cur[j];
    }
  }

  /** Closing a run while a block is open: the run joins that block, which a newline then shuts. */
  lemma {:induction false} GroupRuns<T>(st: ScanState<T>, x: T, k: Kind)
    requires k != Plain && st.first.Some? && st.next.Some?
    ensures var st', cur := Step(st, x, k, false), st.current + [x];
      && Runs(st') == Runs(st) + [cur] && st'.current == [] && st'.first == st.first && st'.same == st.same
      && st'.next.Some?
      && st'.groups == if k == NewLine then st.groups + [st.next.value + [cur]] else st.groups
  {
    var nv := st.next.value + [st.current + [x]];
    var pre := FirstList(st) + st.same + Concat(st.groups);
    assert Runs(st) == pre + st.next.value;
    if k == NewLine {
      assert Step(st, x, k, false) == st.(current := [], groups := st.groups + [nv], next := Some([]));
      ShutRuns(st, nv);
    } else {
      assert Step(st, x, k, false) == st.(current := [], next := Some(nv));
    }
  }

  /** Shutting the open block nv moves its runs from `next` to the end of `groups`. */
  lemma {:induction false} ShutRuns<T>(st: ScanState<T>, nv: seq<seq<T>>)
    ensures Runs(st.(current := [], groups := st.groups + [nv], next := Some([])))
         == FirstList(st) + st.same + Concat(st.groups) + nv
  {
    ConcatAppend(st.groups, [nv]);
    assert Concat([nv]) == nv;
  }

  /** The runs so far, then the one just closed, spell out one more char. */
  lemma {:induction false} CloseText<T>(xs: seq<T>, i: nat, runs: seq<seq<T>>, cur: seq<T>)
    requires i < |xs| && Concat(runs) + cur == xs[..i]
    ensures Concat(runs + [cur + [xs[i]]]) == xs[..i + 1]
  {
    ConcatAppend(runs, [cur + [xs[i]]]);
    assert Concat([cur + [xs[i]]]) == cur + [xs[i]];
    TakeOneMore(xs, i);
  }

  lemma {:induction false} CloseRuns<T>(runs: seq<seq<T>>, cur: seq<T>, kind: T -> Kind)
    requires forall r :: r in runs ==> Closed(r, kind)
    requires Closed(cur, kind)
    ensures forall r :: r in runs + [cur] ==> Closed(r, kind)
  {
  }

  lemma {:induction false} CloseCount<T>(xs: seq<T>, kind: T -> Kind, i: nat)
    requires i < |xs| - 1
    ensures NewLinesBefore(xs, kind, i + 1) == NewLinesBefore(xs, kind, i) + (if kind(xs[i]) == NewLine then 1 else 0)
  {
  }

  lemma {:induction false} ScanInv<T>(xs: seq<T>, kind: T -> Kind, i: nat)
    requires i <= |xs|
    ensures Inv(xs, kind, i, ScanTo(xs, kind, i))
  {
    if i == 0 {
      assert Runs(Start<T>()) == [];
    } else {
      ScanInv(xs, kind, i - 1);
      StepKeepsInv(xs, kind, i - 1, ScanTo(xs, kind, i - 1));
    }
  }

  /** Every run a plan hands out, in chars order: the kept run, then the same-block runs, then the block groups. */
  function NewRuns<T>(p: Plan<T>): seq<seq<T>>
    requires p.Split?
  {
    p.same + Concat(p.groups)
  }

  /** The properties of the plan the split carries out. */
  ghost predicate GoodPlan<T>(xs: seq<T>, kind: T -> Kind, p: Plan<T>)
  {
    && (p.NoSplit? <==> forall j :: 0 <= j < |xs| - 1 ==> kind(xs[j]) == Plain)
    && (p.Split? ==>
          && p.first + Concat(NewRuns(p)) == xs
          && Closed(p.first, kind)
          && NewRuns(p) != []
          && (forall r :: r in NewRuns(p) ==> r != [] && Normal(r, kind))
          && (forall g :: g in p.groups ==> g != [])
          && |p.groups| == NewLineCount(xs, kind)
          && (p.same == [] <==> kind(LastOf(p.first)) == NewLine))
  }

  lemma {:induction false} PlanIsGood<T>(xs: seq<T>, kind: T -> Kind)
    ensures GoodPlan(xs, kind, PlanOf(xs, kind))
  {
    var n := |xs|;
    var st := ScanTo(xs, kind, n);
    ScanInv(xs, kind, n);
    assert xs[..n] == xs;
    var p := PlanOf(xs, kind);
    if st.first.Some? {
      FinishFacts(xs, kind, st);
    }
  }

  lemma {:induction false} FinishFacts<T>(xs: seq<T>, kind: T -> Kind, st: ScanState<T>)
    requires Inv(xs, kind, |xs|, st) && st.first.Some?
    ensures GoodPlan(xs, kind, Finish(st))
  {
    var n := |xs|;
    assert xs[..n] == xs;
    var f := st.first.value;
    assert f in Runs(st);
    assert n >= 1;
    if st.next.None? {
      FinishInBlock(xs, kind, st);
    } else {
      FinishInGroup(xs, kind, st);
    }
  }

  lemma {:induction false} FinishInBlock<T>(xs: seq<T>, kind: T -> Kind, st: ScanState<T>)
    requires |xs| > 0 && Inv(xs, kind, |xs|, st) && st.first.Some? && st.next.None?
    ensures var p := Finish(st);
      && p == Split(st.first.value, st.same + [st.current], [])
      && p.first + Concat(NewRuns(p)) == xs
      && (forall r :: r in NewRuns(p) ==> r != [] && Normal(r, kind))
      && GoodPlan(xs, kind, p)
  {
    var f, c := st.first.value, st.current;
    assert xs[..|xs|] == xs;
    var p := Finish(st);
    assert st.groups == [];
    assert p == Split(f, st.same + [c], []);
    assert NewRuns(p) == st.same + [c];
    assert Runs(st) == [f] + st.same;
    ConcatAppend([f], st.same);
    ConcatAppend(st.same, [c]);
    assert Concat([c]) == c;
    assert Concat([f]) == f;
    assert f in Runs(st);
    forall r | r in NewRuns(p) ensures r != [] && Normal(r, kind) {
      if r != c { assert r in Runs(st); }
    }
  }

  lemma {:induction false} FinishInGroup<T>(xs: seq<T>, kind: T -> Kind, st: ScanState<T>)
    requires |xs| > 0 && Inv(xs, kind, |xs|, st) && st.first.Some? && st.next.Some?
    ensures GoodPlan(xs, kind, Finish(st))
  {
    var f, c := st.first.value, st.current;
    assert xs[..|xs|] == xs;
    var p := Finish(st);
    var nv := st.next.value + [c];
    assert p == Split(f, st.same, st.groups + [nv]);
    ConcatAppend(st.groups, [nv]);
    assert Concat([nv]) == nv;
    assert NewRuns(p) == st.same + (Concat(st.groups) + nv);
    FinishGroupPartition(xs, kind, st);
    forall r | r in NewRuns(p) ensures r != [] && Normal(r, kind) {
      if r != c {
        assert r in st.same || r in Concat(st.groups) || r in st.next.value;
        assert r in Runs(st);
      }
    }
    assert f in Runs(st);
  }

  lemma {:induction false} FinishGroupPartition<T>(xs: seq<T>, kind: T -> Kind, st: ScanState<T>)
    requires st.first.Some? && st.next.Some?
    requires Concat(Runs(st)) + st.current == xs
    ensures st.first.value + Concat(st.same + (Concat(st.groups) + (st.next.value + [st.current]))) == xs
  {
    var f, sm, gs, nv := st.first.value, st.same, Concat(st.groups), st.next.value;
    assert Runs(st) == [f] + sm + gs + nv;
    PartitionFour(f, sm, gs, nv, st.current, xs, Runs(st));
  }

  lemma {:induction false} PartitionFour<T>(f: seq<T>, sm: seq<seq<T>>, gs: seq<seq<T>>, nv: seq<seq<T>>, c: seq<T>, xs: seq<T>, R: seq<seq<T>>)
    requires R == [f] + sm + gs + nv
    requires Concat(R) + c == xs
    ensures f + Concat(sm + (gs + (nv + [c]))) == xs
  {
    ConcatFour(f, sm, gs, nv);
    ConcatFourBack(sm, gs, nv, c);
    RegroupRuns(f, Concat(sm), Concat(gs), Concat(nv), c, Concat(R), Concat(sm + (gs + (nv + [c]))), xs);
  }

  lemma {:induction false} RegroupRuns<T>(f: seq<T>, a: seq<T>, b: seq<T>, d: seq<T>, c: seq<T>, r: seq<T>, q: seq<T>, xs: seq<T>)
    requires r == f + a + b + d && r + c == xs && q == a + b + d + c
    ensures f + q == xs
  {
  }

  lemma {:induction false} ConcatFour<T>(f: seq<T>, sm: seq<seq<T>>, gs: seq<seq<T>>, nv: seq<seq<T>>)
    ensures Concat([f] + sm + gs + nv) == f + Concat(sm) + Concat(gs) + Concat(nv)
  {
    var A := [f] + sm;
    var B := A + gs;
    ConcatAppend(B, nv);
    ConcatAppend(A, gs);
    ConcatAppend([f], sm);
  }

  lemma {:induction false} ConcatFourBack<T>(sm: seq<seq<T>>, gs: seq<seq<T>>, nv: seq<seq<T>>, c: seq<T>)
    ensures Concat(sm + (gs + (nv + [c]))) == Concat(sm) + Concat(gs) + Concat(nv) + c
  {
    ConcatAppend(nv, [c]);
    ConcatAppend(gs, nv + [c]);
    ConcatAppend(sm, gs + (nv + [c]));
  }

  /** The `forEach` of lines 81-109 and the wrap-up of lines 111-131, as the loop it is. */
  method Scan<T>(xs: seq<T>, kind: T -> Kind) returns (p: Plan<T>)
    ensures p == PlanOf(xs, kind)
  {
    var current: seq<T> := [];
    var first: Option<seq<T>> := None;
    var same: seq<seq<T>> := [];
    var next: Option<seq<seq<T>>> := None;
    var groups: seq<seq<seq<T>>> := [];
    var i := 0;
    while i < |xs|
      invariant i <= |xs|
      invariant ScanState(current, first, same, next, groups) == ScanTo(xs, kind, i)
    {
      var x := xs[i];
      current := current + [x];
      if i != |xs| - 1 && kind(x) != Plain {
        if first.None? {
          first := Some(current);
        } else if next.None? {
          same := same + [current];
        } else {
          next := Some(next.value + [current]);
        }
        current := [];
        if kind(x) == NewLine {
          if next.Some? {
            groups := groups + [next.value];
          }
          next := Some([]);
        }
      }
      i := i + 1;
    }
    if first.None? {
      return NoSplit;
    }
    if |current| > 0 {
      if next.None? {
        same := same + [current];
      } else {
        next := Some(next.value + [current]);
      }
    }
    if next.Some? {
      groups := groups + [next.value];
    }
    p := Split(first.value, same, groups);
  }

  /** A word with no separator before its last char is left alone (lines 111-114). */
  lemma {:induction false} NormalIsNoSplit<T>(xs: seq<T>, kind: T -> Kind)
    ensures Normal(xs, kind) <==> PlanOf(xs, kind).NoSplit?
  {
    PlanIsGood(xs, kind);
  }

  lemma {:induction false} NoNewLines<T>(xs: seq<T>, kind: T -> Kind, i: nat)
    requires i <= |xs|
    requires forall j :: 0 <= j < i && j < |xs| - 1 ==> kind(xs[j]) != NewLine
    ensures NewLinesBefore(xs, kind, i) == 0
  {
    if i > 0 {
      NoNewLines(xs, kind, i - 1);
    }
  }

  /**
   * A word with a single separator before its last char splits into at most two runs that
   * stay in order: either it ends a line and there are no same-block words, or it is a space
   * and no new block is made.  This is the situation after typing one char into a word.
   */
  lemma {:induction false} SingleSeparator<T>(xs: seq<T>, kind: T -> Kind, k: nat)
    requires k < |xs| - 1
    requires forall j :: 0 <= j < |xs| - 1 && j != k ==> kind(xs[j]) == Plain
    ensures var p := PlanOf(xs, kind);
      p.Split? <==> kind(xs[k]) != Plain
    ensures var p := PlanOf(xs, kind);
      p.Split? ==> p.same == [] || p.groups == []
  {
    var p := PlanOf(xs, kind);
    PlanIsGood(xs, kind);
    if p.Split? && kind(LastOf(p.first)) == Space {
      var f := p.first;
      assert xs == f + Concat(NewRuns(p));
      assert xs[..|f|] == f;
      assert xs[|f| - 1] == LastOf(f);
      assert NewRuns(p)[0] in NewRuns(p);
      assert |f| < |xs|;
      assert |f| - 1 == k;
      NoNewLines(xs, kind, |xs|);
    }
  }
}
