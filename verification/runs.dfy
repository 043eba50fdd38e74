/** Cutting a sequence into runs by a rule that looks at the run so far: a run goes on until the rule
    says that it ends. */
module Runs {

  /** Does a run end here? */
  type Rule<!T> = seq<T> -> bool

  /** The run that is still open at the end of `s`. */
  ghost function OpenRun<T>(ends: Rule<T>, s: seq<T>): seq<T> {
    if |s| == 0 then []
    else
      var run := OpenRun(ends, s[..|s| - 1]) + [s[|s| - 1]];
      if ends(run) then [] else run
  }

  /** The runs before it. */
  ghost function ClosedRuns<T>(ends: Rule<T>, s: seq<T>): seq<seq<T>> {
    if |s| == 0 then []
    else
      var before := s[..|s| - 1];
      var run := OpenRun(ends, before) + [s[|s| - 1]];
      if ends(run) then ClosedRuns(ends, before) + [run] else ClosedRuns(ends, before)
  }

  /** All runs of `s`. */
  ghost function Cut<T>(ends: Rule<T>, s: seq<T>): seq<seq<T>> {
    ClosedRuns(ends, s) + if OpenRun(ends, s) == [] then [] else [OpenRun(ends, s)]
  }

  function Flat<T>(runs: seq<seq<T>>): seq<T> {
    if |runs| == 0 then [] else Flat(runs[..|runs| - 1]) + runs[|runs| - 1]
  }

  /** The rule in words: the runs make up `s`, no run ends before its last element, and all but the
      last end there. */
  ghost predicate IsCut<T>(ends: Rule<T>, runs: seq<seq<T>>, s: seq<T>) {
    && Flat(runs) == s
    && (forall i :: 0 <= i < |runs| ==> Unbroken(ends, runs[i]))
    && (forall i :: 0 <= i < |runs| - 1 ==> ends(runs[i]))
  }

  ghost predicate Unbroken<T>(ends: Rule<T>, run: seq<T>) {
    run != [] && forall k :: 0 < k < |run| ==> !ends(run[..k])
  }

  lemma RunNext<T>(ends: Rule<T>, s: seq<T>, x: T)
    ensures var run := OpenRun(ends, s) + [x];
            && OpenRun(ends, s + [x]) == (if ends(run) then [] else run)
            && ClosedRuns(ends, s + [x]) == (if ends(run) then ClosedRuns(ends, s) + [run] else ClosedRuns(ends, s))
  {
    assert (s + [x])[..|s|] == s;
  }

  lemma FlatNext<T>(runs: seq<seq<T>>, run: seq<T>)
    ensures Flat(runs + [run]) == Flat(runs) + run
  {
    assert (runs + [run])[..|runs|] == runs;
  }

  /** Closed runs and an open one as the rule demands. */
  ghost predicate Ruled<T>(ends: Rule<T>, closed: seq<seq<T>>, open: seq<T>, s: seq<T>) {
    && Flat(closed) + open == s
    && (open != [] ==> Unbroken(ends, open) && !ends(open))
    && (forall i :: 0 <= i < |closed| ==> Unbroken(ends, closed[i]) && ends(closed[i]))
  }

  lemma RuledOpen<T>(ends: Rule<T>, closed: seq<seq<T>>, open: seq<T>, s: seq<T>, x: T)
    requires Ruled(ends, closed, open, s) && !ends(open + [x])
    ensures Ruled(ends, closed, open + [x], s + [x])
  {
    RunGoesOn(ends, open, x);
    hide Unbroken;
    assert Flat(closed) + (open + [x]) == s + [x];
  }

  lemma RuledClosed<T>(ends: Rule<T>, closed: seq<seq<T>>, open: seq<T>, s: seq<T>, x: T)
    requires Ruled(ends, closed, open, s) && ends(open + [x])
    ensures Ruled(ends, closed + [open + [x]], [], s + [x])
  {
    RunGoesOn(ends, open, x);
    hide Unbroken;
    FlatNext(closed, open + [x]);
    assert Flat(closed) + (open + [x]) + [] == s + [x];
  }

  lemma {:induction false} AllRuled<T>(ends: Rule<T>, s: seq<T>)
    ensures Ruled(ends, ClosedRuns(ends, s), OpenRun(ends, s), s)
  {
    if |s| > 0 {
      hide Ruled, OpenRun, ClosedRuns;
      var before, x := s[..|s| - 1], s[|s| - 1];
      assert s == before + [x];
      AllRuled(ends, before);
      RunNext(ends, before, x);
      if ends(OpenRun(ends, before) + [x]) {
        RuledClosed(ends, ClosedRuns(ends, before), OpenRun(ends, before), before, x);
      } else {
        RuledOpen(ends, ClosedRuns(ends, before), OpenRun(ends, before), before, x);
      }
    }
  }

  /** The open run does not end anywhere, nor do the closed ones before their last element. */
  lemma RunsRule<T>(ends: Rule<T>, s: seq<T>)
    ensures Flat(ClosedRuns(ends, s)) + OpenRun(ends, s) == s
    ensures OpenRun(ends, s) != [] ==> Unbroken(ends, OpenRun(ends, s)) && !ends(OpenRun(ends, s))
    ensures forall i :: 0 <= i < |ClosedRuns(ends, s)| ==>
                          Unbroken(ends, ClosedRuns(ends, s)[i]) && ends(ClosedRuns(ends, s)[i])
  {
    hide OpenRun, ClosedRuns, Unbroken;
    AllRuled(ends, s);
  }

  lemma RunGoesOn<T>(ends: Rule<T>, open: seq<T>, x: T)
    requires open != [] ==> Unbroken(ends, open) && !ends(open)
    ensures Unbroken(ends, open + [x])
  {
    var run := open + [x];
    forall k | 0 < k < |run| ensures !ends(run[..k]) {
      assert run[..k] == open[..k];
      assert k == |open| ==> open[..k] == open;
    }
  }

  lemma CutIsCut<T>(ends: Rule<T>, s: seq<T>)
    ensures IsCut(ends, Cut(ends, s), s)
  {
    hide Unbroken;
    RunsRule(ends, s);
    var closed, open := ClosedRuns(ends, s), OpenRun(ends, s);
    FlatNext(closed, open);
    if open == [] {
      assert closed + [] == closed && Flat(closed) + [] == Flat(closed);
    }
  }

  lemma {:induction false} FlatSize<T>(runs: seq<seq<T>>)
    requires Flat(runs) == [] && forall i :: 0 <= i < |runs| ==> runs[i] != []
    ensures runs == []
  {
  }

  /** The rule leaves no choice. */
  lemma {:induction false} CutUnique<T>(ends: Rule<T>, runs: seq<seq<T>>, s: seq<T>)
    requires IsCut(ends, runs, s)
    ensures runs == Cut(ends, s)
    decreases |s|
  {
    hide Unbroken, Cut;
    if s == [] {
      NoRuns(ends, runs);
    } else {
      var before, x, first, r := LastOff(ends, runs, s);
      CutUnique(ends, if r == [] then first else first + [r], before);
      if r == [] {
        NewRun(ends, before, x, first);
        assert r + [x] == [x];
      } else {
        MoreOfRun(ends, before, x, first, r);
      }
    }
  }

  lemma NoRuns<T>(ends: Rule<T>, runs: seq<seq<T>>)
    requires IsCut(ends, runs, [])
    ensures runs == Cut(ends, [])
  {
    FlatSize(runs);
  }

  /** Without the last element, the last run is shorter or gone. */
  lemma LastOff<T>(ends: Rule<T>, runs: seq<seq<T>>, s: seq<T>)
    returns (before: seq<T>, x: T, first: seq<seq<T>>, r: seq<T>)
    requires IsCut(ends, runs, s) && s != []
    ensures s == before + [x] && runs == first + [r + [x]] && |before| < |s|
    ensures IsCut(ends, if r == [] then first else first + [r], before)
    ensures if r == [] then forall i :: 0 <= i < |first| ==> ends(first[i]) else !ends(r)
  {
    var n := |runs| - 1;
    before, x := s[..|s| - 1], s[|s| - 1];
    var last := runs[n];
    first, r := runs[..n], last[..|last| - 1];
    assert last == r + [x];
    FlatNext(first, last);
    FlatNext(first, r);
    assert runs == first + [last];
    assert Flat(first) + r == before;
    if r == [] {
      assert Flat(first) + r == Flat(first);
    } else {
      ShorterUnbroken(ends, last);
    }
  }

  lemma NewRun<T>(ends: Rule<T>, s: seq<T>, x: T, first: seq<seq<T>>)
    requires first == Cut(ends, s) && forall i :: 0 <= i < |first| ==> ends(first[i])
    ensures first + [[x]] == Cut(ends, s + [x])
  {
    hide Unbroken;
    LastEnds(ends, s, first);
    RunNext(ends, s, x);
    assert [] + [x] == [x];
  }

  lemma MoreOfRun<T>(ends: Rule<T>, s: seq<T>, x: T, first: seq<seq<T>>, r: seq<T>)
    requires first + [r] == Cut(ends, s) && !ends(r)
    ensures first + [r + [x]] == Cut(ends, s + [x])
  {
    hide Unbroken;
    LastOpen(ends, s, first, r);
    RunNext(ends, s, x);
  }

  lemma ShorterUnbroken<T>(ends: Rule<T>, last: seq<T>)
    requires Unbroken(ends, last) && |last| > 1
    ensures var r := last[..|last| - 1]; Unbroken(ends, r) && !ends(r)
  {
    var r := last[..|last| - 1];
    forall k | 0 < k < |r| ensures !ends(r[..k]) {
      assert r[..k] == last[..k];
    }
  }

  /** If all runs end, none is open. */
  lemma LastEnds<T>(ends: Rule<T>, s: seq<T>, runs: seq<seq<T>>)
    requires runs == Cut(ends, s) && forall i :: 0 <= i < |runs| ==> ends(runs[i])
    ensures OpenRun(ends, s) == [] && ClosedRuns(ends, s) == runs
  {
    hide Unbroken;
    RunsRule(ends, s);
    assert OpenRun(ends, s) != [] ==> OpenRun(ends, s) in runs;
  }

  /** If the last run does not end, it is the open one. */
  lemma LastOpen<T>(ends: Rule<T>, s: seq<T>, runs: seq<seq<T>>, r: seq<T>)
    requires runs + [r] == Cut(ends, s) && !ends(r)
    ensures OpenRun(ends, s) == r && ClosedRuns(ends, s) == runs
  {
    var all, closed, open := runs + [r], ClosedRuns(ends, s), OpenRun(ends, s);
    assert r in all && all[..|runs|] == runs && all[|runs|] == r;
    if r in closed {
      ClosedEnd(ends, s, r);
    }
    assert all == closed + (if open == [] then [] else [open]);
    assert open != [];
    assert |all| == |closed| + 1;
  }

  lemma ClosedEnd<T>(ends: Rule<T>, s: seq<T>, r: seq<T>)
    requires r in ClosedRuns(ends, s)
    ensures ends(r)
  {
    RunsRule(ends, s);
  }
}
