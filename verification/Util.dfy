/** The small utilities of util.py: `findAll`, the change detector
    `CallbackWrapper`, and the Tk variable `tkVar` builds around it. */
module Util {
  import opened Wrappers

  // ---------------------------------------------------------------------
  // `findAll`

  /** `text[i:i + len(pat)] == pat` with the match inside `text`. */
  predicate OccursAt(text: string, pat: string, i: nat) {
    i + |pat| <= |text| && text[i..i + |pat|] == pat
  }

  /** `text.find(pat, start)`: the lowest position at or after `start`
      where `pat` occurs, or -1. */
  function Find(text: string, pat: string, start: nat): (r: int)
    ensures r == -1 || (start <= r && OccursAt(text, pat, r))
    decreases |text| - start
  {
    if start + |pat| > |text| then -1
    else if OccursAt(text, pat, start) then start
    else Find(text, pat, start + 1)
  }

  /** `find` misses nothing: no occurrence lies between the start and the
      position it answers, and none at all after the start when it answers
      -1. */
  lemma {:induction false} FindIsLowest(text: string, pat: string, start: nat, j: nat)
    requires start <= j && OccursAt(text, pat, j)
    ensures Find(text, pat, start) != -1 && Find(text, pat, start) <= j
    decreases |text| - start
  {
    if start < j && !OccursAt(text, pat, start) {
      FindIsLowest(text, pat, start + 1, j);
    }
  }

  /** The positions `findAll(text, pat)` yields from `start` on. */
  function Matches(text: string, pat: string, start: nat): seq<int>
    requires |pat| > 0
    decreases |text| - start
  {
    var i := Find(text, pat, start);
    if i == -1 then [] else [i] + Matches(text, pat, i + |pat|)
  }

  /** The yielded positions are occurrences at or after `start`, increasing,
      each at least `|pat|` after the previous one, so the matches do not
      overlap. */
  lemma {:induction false} MatchesAreOccurrences(text: string, pat: string, start: nat)
    requires |pat| > 0
    ensures forall k :: 0 <= k < |Matches(text, pat, start)| ==>
      start <= Matches(text, pat, start)[k] && OccursAt(text, pat, Matches(text, pat, start)[k])
    ensures forall k :: 0 < k < |Matches(text, pat, start)| ==>
      Matches(text, pat, start)[k - 1] + |pat| <= Matches(text, pat, start)[k]
    decreases |text| - start
  {
    var i := Find(text, pat, start);
    if i != -1 {
      MatchesAreOccurrences(text, pat, i + |pat|);
      var rest := Matches(text, pat, i + |pat|);
      var ms := Matches(text, pat, start);
      assert ms == [i] + rest;
      assert forall k :: 0 < k < |ms| ==> ms[k] == rest[k - 1];
    }
  }

  /** Matches never go backwards: each position is greater than the one
      before it. */
  lemma MatchesIncrease(text: string, pat: string, start: nat, k: nat, l: nat)
    requires |pat| > 0
    requires k < l < |Matches(text, pat, start)|
    ensures Matches(text, pat, start)[k] < Matches(text, pat, start)[l]
    decreases l - k
  {
    MatchesAreOccurrences(text, pat, start);
    if k + 1 < l {
      MatchesIncrease(text, pat, start, k + 1, l);
    }
  }

  /** Leftmost and greedy: every occurrence at or after `start` overlaps a
      yielded match, so none starts between the end of one match and the
      next, or after the last one. */
  lemma {:induction false} MatchesAreLeftmost(text: string, pat: string, start: nat, j: nat)
    requires |pat| > 0
    requires start <= j && OccursAt(text, pat, j)
    ensures exists k ::
              && 0 <= k < |Matches(text, pat, start)|
              && Matches(text, pat, start)[k] <= j < Matches(text, pat, start)[k] + |pat|
    decreases |text| - start
  {
    FindIsLowest(text, pat, start, j);
    var i := Find(text, pat, start);
    var ms := Matches(text, pat, start);
    var rest := Matches(text, pat, i + |pat|);
    assert ms == [i] + rest;
    if j >= i + |pat| {
      MatchesAreLeftmost(text, pat, i + |pat|, j);
      var k :| 0 <= k < |rest| && rest[k] <= j < rest[k] + |pat|;
      assert ms[k + 1] == rest[k];
    } else {
      assert ms[0] <= j < ms[0] + |pat|;
    }
  }

  /** With an empty pattern `find` answers `start` itself, so `iStart += 0`
      leaves the loop where it was: `findAll` yields the same position
      forever, which is why the model requires a non-empty pattern. */
  lemma EmptyPatternStalls(text: string, start: nat)
    requires start <= |text|
    ensures Find(text, "", start) == start && start + |""| == start
  {
  }

  /** The first match from `start` on is the first position yielded, and the
      search goes on after it. */
  lemma MatchesUnfold(text: string, pat: string, start: nat)
    requires |pat| > 0 && Find(text, pat, start) != -1
    ensures Find(text, pat, start) + |pat| <= |text|
    ensures Matches(text, pat, start) == [Find(text, pat, start)] + Matches(text, pat, Find(text, pat, start) + |pat|)
  {
  }

  /** One yield of the generator, after the positions `before`. */
  lemma MatchesStep(text: string, pat: string, start: nat, before: seq<int>)
    requires |pat| > 0 && Find(text, pat, start) != -1
    ensures Find(text, pat, start) + |pat| <= |text|
    ensures before + Matches(text, pat, start)
      == (before + [Find(text, pat, start)]) + Matches(text, pat, Find(text, pat, start) + |pat|)
  {
    MatchesUnfold(text, pat, start);
    var i := Find(text, pat, start);
    var next := Matches(text, pat, i + |pat|);
    assert before + ([i] + next) == (before + [i]) + next;
  }

  /** The generator of util.py:193-201, run to its end. */
  method FindAll(text: string, pat: string) returns (starts: seq<int>)
    requires |pat| > 0
    ensures starts == Matches(text, pat, 0)
  {
    starts := [];
    var iStart: nat := 0;
    var i := Find(text, pat, iStart);
    while i != -1
      invariant i == Find(text, pat, iStart)
      invariant starts + Matches(text, pat, iStart) == Matches(text, pat, 0)
      decreases |text| - iStart
    {
      MatchesStep(text, pat, iStart, starts);
      starts := starts + [i];
      iStart := i + |pat|;
      i := Find(text, pat, iStart);
    }
    assert starts + [] == starts;
  }

  // ---------------------------------------------------------------------
  // `CallbackWrapper` and `tkVar`

  /** What one call `fireIfNew(v)` does to a wrapper that last saw `seen`:
      the value it sees next, and the calls of the callback (none or one,
      with `v`). */
  function FireStep<T(==)>(seen: T, v: T): (r: (T, seq<T>))
    ensures r.0 == v
    ensures |r.1| <= 1
    ensures r.1 == [v] <==> v != seen
  {
    if v != seen then (v, [v]) else (seen, [])
  }

  /** The callback calls of successive `fireIfNew` calls with the values
      `vs`, starting from `seen`. */
  function Fires<T(==)>(seen: T, vs: seq<T>): seq<T>
    decreases |vs|
  {
    if vs == [] then []
    else
      var step := FireStep(seen, vs[0]);
      step.1 + Fires(step.0, vs[1..])
  }

  /** Two calls in a row with the same value call back at most once. */
  lemma FiresAtMostOnce<T>(seen: T, v: T)
    ensures |Fires(seen, [v, v])| <= 1
  {
    assert [v, v][1..] == [v];
    assert [v][1..] == [];
    var step := FireStep(seen, v);
    assert Fires(seen, [v, v]) == step.1 + Fires(v, [v]);
    assert Fires(v, [v]) == [] + Fires(v, []);
  }

  /** The callback only ever sees changes: each value it is called with
      differs from the previous one (from `seen` for the first). */
  lemma {:induction false} FiresOnlyChanges<T>(seen: T, vs: seq<T>)
    ensures var fs := Fires(seen, vs);
      (|fs| > 0 ==> fs[0] != seen) && forall k :: 0 < k < |fs| ==> fs[k] != fs[k - 1]
    decreases |vs|
  {
    if vs != [] {
      var step := FireStep(seen, vs[0]);
      FiresOnlyChanges(step.0, vs[1..]);
      var rest := Fires(step.0, vs[1..]);
      if step.1 != [] {
        assert Fires(seen, vs) == [vs[0]] + rest;
      }
    }
  }

  /** Setting a value equal to the one seen never calls back, however often. */
  lemma {:induction false} SameValueNeverFires<T>(seen: T, vs: seq<T>)
    requires forall k :: 0 <= k < |vs| ==> vs[k] == seen
    ensures Fires(seen, vs) == []
    decreases |vs|
  {
    if vs != [] {
      SameValueNeverFires(seen, vs[1..]);
    }
  }

  /** `CallbackWrapper`: the value last seen, and the values the callback was
      called with so far (the callback itself is the caller's). */
  class CallbackWrapper<T(==)> {
    var seen: T
    var calls: seq<T>

    constructor(initial: T)
      ensures seen == initial && calls == []
    {
      seen := initial;
      calls := [];
    }

    /** `fireIfNew` */
    method FireIfNew(v: T)
      modifies this
      ensures seen == FireStep(old(seen), v).0
      ensures calls == old(calls) + FireStep(old(seen), v).1
    {
      if v != seen {
        seen := v;
        calls := calls + [v];
      } else {
        assert calls + [] == calls;
      }
    }
  }

  /** A Tk variable made by `tkVar` with a callback: its value and the change
      detector its write trace feeds. */
  class TkVar<T(==)> {
    var value: T
    const watcher: CallbackWrapper<T>

    /** The detector always knows the variable's value. */
    predicate Valid()
      reads this, watcher
    {
      watcher.seen == value
    }

    /** `tkVar(var, seed, callback)` on a variable holding `initial`: the
        seed, when given, is set before the detector is made, and the
        detector starts from the variable's value, so making the variable
        never calls back. */
    constructor(initial: T, seed: Option<T>)
      ensures Valid() && fresh(watcher)
      ensures value == seed.GetOr(initial) && watcher.calls == []
    {
      value := seed.GetOr(initial);
      watcher := new CallbackWrapper(seed.GetOr(initial));
    }

    /** `var.set(v)`: the trace runs `fireIfNew(var.get())`. */
    method Set(v: T)
      requires Valid()
      modifies this, watcher
      ensures Valid() && value == v
      ensures watcher.calls == old(watcher.calls) + (if v != old(value) then [v] else [])
    {
      value := v;
      watcher.FireIfNew(value);
    }
  }
}
