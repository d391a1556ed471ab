/** The accounting of `_progress_bar` in dmutils.py: while the worker thread
    runs, each poll advances the bar by `tstep` and clamps the last step so
    that the bar lands on `estimated_time`; once the worker is done, a
    catch-up loop fills the bar to `estimated_time`. The thread is reduced to
    the number of polls that find it alive, the bar's `update` calls to the
    sequence of increments they pass, and times are exact reals. */
module Progress {
  import opened Wrappers

  /** The sum of the increments, which is how far `update` has moved the bar. */
  function Sum(s: seq<real>): real {
    if s == [] then 0.0 else Sum(s[..|s| - 1]) + s[|s| - 1]
  }

  /** The prefix of `s` without its last increment. */
  function Init(s: seq<real>): seq<real>
    requires s != []
  {
    s[..|s| - 1]
  }

  /** Every increment is non-negative and every running total lies in
      `[0, hi]`, stated one append at a time. */
  ghost predicate Monotone(s: seq<real>, hi: real) {
    if s == [] then 0.0 <= hi
    else Monotone(Init(s), hi) && s[|s| - 1] >= 0.0 && Sum(s) <= hi
  }

  /** No increment other than 0 is made once the running total equals `e`. */
  ghost predicate StillAfter(s: seq<real>, e: real) {
    s == [] || (StillAfter(Init(s), e) && (Sum(Init(s)) == e ==> s[|s| - 1] == 0.0))
  }

  lemma InitAppend(s: seq<real>, x: real)
    ensures Init(s + [x]) == s && (s + [x])[|s|] == x
  {
  }

  lemma SumAppend(s: seq<real>, x: real)
    ensures Sum(s + [x]) == Sum(s) + x
  {
    InitAppend(s, x);
  }

  /** The recursive `Monotone` says what its name promises of every index. */
  lemma MonotoneMeans(s: seq<real>, hi: real)
    ensures Monotone(s, hi) <==>
      && (forall i :: 0 <= i < |s| ==> s[i] >= 0.0)
      && (forall i :: 0 <= i <= |s| ==> 0.0 <= Sum(s[..i]) <= hi)
  {
    if Monotone(s, hi) {
      MonotoneSteps(s, hi);
    } else if forall i :: 0 <= i <= |s| ==> 0.0 <= Sum(s[..i]) <= hi {
      if forall i :: 0 <= i < |s| ==> s[i] >= 0.0 {
        StepsMonotone(s, hi);
      }
    }
  }

  lemma {:induction false} MonotoneSteps(s: seq<real>, hi: real)
    requires Monotone(s, hi)
    ensures forall i :: 0 <= i < |s| ==> s[i] >= 0.0
    ensures forall i :: 0 <= i <= |s| ==> 0.0 <= Sum(s[..i]) <= hi
  {
    if s == [] {
      assert s[..0] == [];
    } else {
      var t := Init(s);
      MonotoneSteps(t, hi);
      SumNonNegative(t, hi);
      assert s[..|s|] == s;
      assert forall i :: 0 <= i <= |t| ==> s[..i] == t[..i];
      assert forall i :: 0 <= i < |t| ==> s[i] == t[i];
    }
  }

  lemma {:induction false} StepsMonotone(s: seq<real>, hi: real)
    requires forall i :: 0 <= i < |s| ==> s[i] >= 0.0
    requires forall i :: 0 <= i <= |s| ==> 0.0 <= Sum(s[..i]) <= hi
    ensures Monotone(s, hi)
  {
    if s == [] {
      assert s[..0] == [];
    } else {
      var t := Init(s);
      assert forall i :: 0 <= i <= |t| ==> s[..i] == t[..i];
      assert forall i :: 0 <= i < |t| ==> s[i] == t[i];
      StepsMonotone(t, hi);
      assert s[..|s|] == s;
    }
  }

  lemma {:induction false} SumNonNegative(s: seq<real>, hi: real)
    requires Monotone(s, hi)
    ensures 0.0 <= Sum(s)
  {
    if s != [] {
      SumNonNegative(Init(s), hi);
    }
  }

  /** The recursive `StillAfter` says what its name promises of every index. */
  lemma {:induction false} StillAfterMeans(s: seq<real>, e: real)
    ensures StillAfter(s, e) <==> forall i :: 0 <= i < |s| && Sum(s[..i]) == e ==> s[i] == 0.0
  {
    if s != [] {
      var t := Init(s);
      StillAfterMeans(t, e);
      assert forall i :: 0 <= i <= |t| ==> s[..i] == t[..i];
      assert forall i :: 0 <= i < |t| ==> s[i] == t[i];
    }
  }

  /** A keyword argument as the worker sees it: the caller's value, or the
      built-in print handle put under `_progress_bar`. */
  datatype Arg<V> = Plain(v: V) | BarHandle

  /** `if '_progress_bar' in kwargs.keys(): kwargs['_progress_bar'] = handle`. */
  function InjectHandle<V>(kwargs: map<string, Arg<V>>): (r: map<string, Arg<V>>)
    ensures r.Keys == kwargs.Keys
    ensures "_progress_bar" in kwargs ==> r["_progress_bar"] == BarHandle
    ensures forall k :: k in kwargs && k != "_progress_bar" ==> r[k] == kwargs[k]
  {
    if "_progress_bar" in kwargs then kwargs["_progress_bar" := BarHandle] else kwargs
  }

  /** Multiplying by a positive factor keeps a strict order. */
  lemma MulStrict(a: real, b: real, t: real)
    requires a < b && t > 0.0
    ensures a * t < b * t
  {
    assert b * t - a * t == (b - a) * t;
    assert (b - a) * t > 0.0;
  }

  /** `n` steps of length `t` more than cover a positive distance `d`. */
  lemma StepsCover(d: real, t: real) returns (n: nat)
    requires d > 0.0 && t > 0.0
    ensures n >= 1 && d < (n as real) * t
  {
    var q := d / t;
    assert q * t == d;
    if q <= 0.0 {
      MulStrict(q, 1.0, t);
    }
    assert q > 0.0;
    n := q.Floor + 1;
    assert q < n as real;
    MulStrict(q, n as real, t);
    assert q * t < (n as real) * t;
    assert d == q * t;
  }

  /** One step of `t` leaves fewer than `n - 1` steps to go. */
  lemma StepTaken(d: real, t: real, n: nat)
    requires t > 0.0 && d < (n as real) * t && d - t > 0.0
    ensures n >= 2 && d - t < ((n - 1) as real) * t
  {
    assert ((n - 1) as real) * t == (n as real) * t - t;
    if n <= 1 {
      MulStrict(n as real, 1.0, t);
    }
  }

  /** Appending one increment: how the sum and the two predicates extend. */
  lemma Step(s: seq<real>, x: real, e: real)
    ensures Sum(s + [x]) == Sum(s) + x
    ensures Monotone(s, e) && x >= 0.0 && Sum(s) + x <= e ==> Monotone(s + [x], e)
    ensures StillAfter(s, e) && (Sum(s) == e ==> x == 0.0) ==> StillAfter(s + [x], e)
  {
    InitAppend(s, x);
  }

  /** The accounting state: the increments passed to `update` so far,
      `actuall_time` and the current `tstep`. */
  datatype PollState = PollState(increments: seq<real>, actual: real, t: real)

  /** The first `if` of a poll: advance by `t` while short of the estimate. */
  function Advance(estimated: real, s: PollState): PollState {
    if s.actual < estimated then PollState(s.increments + [s.t], s.actual + s.t, s.t) else s
  }

  /** The second `if`: once a step would pass the estimate, the step becomes
      the distance left, and the bar moves by it. */
  function Clamp(estimated: real, s: PollState): PollState {
    if s.actual + s.t > estimated then
      var t := estimated - s.actual;
      PollState(s.increments + [t], s.actual + t, t)
    else s
  }

  /** One poll that finds the worker alive. */
  function PollOnce(estimated: real, s: PollState): (r: PollState)
    ensures s.increments <= r.increments && |r.increments| <= |s.increments| + 2
  {
    Clamp(estimated, Advance(estimated, s))
  }

  /** What holds after `p` polls, one conjunct per property. */
  ghost predicate PollSum(s: PollState) {
    s.actual == Sum(s.increments)
  }

  ghost predicate PollCore(estimated: real, tstep: real, p: nat, s: PollState) {
    && (s.t == tstep || s.actual == estimated)
    && (p == 0 ==> s.increments == [] && s.t == tstep)
    && (estimated >= 0.0 ==> s.actual <= estimated)
    && (estimated >= 0.0 && tstep <= 0.0 ==> s.increments == [] && s.t == tstep)
  }

  ghost predicate PollNegative(estimated: real, tstep: real, p: nat, s: PollState) {
    estimated < 0.0 ==>
      if p > 0 && tstep > estimated then s.increments == [estimated] && s.t == estimated
      else s.increments == [] && s.t == tstep
  }

  ghost predicate PollMonotone(estimated: real, tstep: real, s: PollState) {
    0.0 < tstep <= estimated ==>
      Monotone(s.increments, estimated) && s.t >= 0.0 && (s.actual == estimated || s.actual + s.t <= estimated)
  }

  ghost predicate PollOvershoot(estimated: real, tstep: real, p: nat, s: PollState) {
    0.0 < estimated < tstep && p > 0 ==>
      |s.increments| >= 2 && s.increments[0] == tstep && s.increments[1] == estimated - tstep
  }

  ghost predicate PollInv(estimated: real, tstep: real, p: nat, s: PollState) {
    && PollSum(s) && PollCore(estimated, tstep, p, s) && PollNegative(estimated, tstep, p, s)
    && PollMonotone(estimated, tstep, s) && StillAfter(s.increments, estimated)
    && PollOvershoot(estimated, tstep, p, s)
  }

  lemma PollOnceSum(estimated: real, s: PollState)
    requires PollSum(s)
    ensures PollSum(PollOnce(estimated, s))
  {
    var s1 := Advance(estimated, s);
    SumAppend(s.increments, s.t);
    SumAppend(s1.increments, estimated - s1.actual);
  }

  lemma PollOnceCore(estimated: real, tstep: real, p: nat, s: PollState)
    requires tstep > 0.0 || estimated <= 0.0
    requires PollSum(s) && PollCore(estimated, tstep, p, s)
    ensures PollCore(estimated, tstep, p + 1, PollOnce(estimated, s))
  {
  }

  lemma PollOnceNegative(estimated: real, tstep: real, p: nat, s: PollState)
    requires PollSum(s) && PollCore(estimated, tstep, p, s) && PollNegative(estimated, tstep, p, s)
    ensures PollNegative(estimated, tstep, p + 1, PollOnce(estimated, s))
  {
  }

  lemma PollOnceMonotone(estimated: real, tstep: real, s: PollState)
    requires PollSum(s) && PollMonotone(estimated, tstep, s)
    ensures PollMonotone(estimated, tstep, PollOnce(estimated, s))
  {
    if 0.0 < tstep <= estimated {
      var s1 := Advance(estimated, s);
      Step(s.increments, s.t, estimated);
      Step(s1.increments, estimated - s1.actual, estimated);
    }
  }

  lemma PollOnceStill(estimated: real, s: PollState)
    requires PollSum(s) && StillAfter(s.increments, estimated)
    ensures StillAfter(PollOnce(estimated, s).increments, estimated)
  {
    var s1 := Advance(estimated, s);
    Step(s.increments, s.t, estimated);
    Step(s1.increments, estimated - s1.actual, estimated);
  }

  lemma PollOnceOvershoot(estimated: real, tstep: real, p: nat, s: PollState)
    requires PollSum(s) && PollCore(estimated, tstep, p, s) && PollOvershoot(estimated, tstep, p, s)
    ensures PollOvershoot(estimated, tstep, p + 1, PollOnce(estimated, s))
  {
    var r := PollOnce(estimated, s);
    if 0.0 < estimated < tstep {
      if p == 0 {
        assert r.increments == [tstep, estimated - tstep];
      } else {
        assert r.increments[..|s.increments|] == s.increments;
        assert r.increments[0] == s.increments[0] && r.increments[1] == s.increments[1];
      }
    }
  }

  /** One poll keeps every property. */
  lemma PollOnceKeeps(estimated: real, tstep: real, p: nat, s: PollState)
    requires tstep > 0.0 || estimated <= 0.0
    requires PollInv(estimated, tstep, p, s)
    ensures PollInv(estimated, tstep, p + 1, PollOnce(estimated, s))
  {
    PollOnceSum(estimated, s);
    PollOnceCore(estimated, tstep, p, s);
    PollOnceNegative(estimated, tstep, p, s);
    PollOnceMonotone(estimated, tstep, s);
    PollOnceStill(estimated, s);
    PollOnceOvershoot(estimated, tstep, p, s);
  }

  /** The state after `p` polls that found the worker alive. */
  function PollN(estimated: real, tstep: real, p: nat): (r: PollState)
    ensures |r.increments| <= 2 * p
  {
    if p == 0 then PollState([], 0.0, tstep) else PollOnce(estimated, PollN(estimated, tstep, p - 1))
  }

  /** Every property holds after any number of polls. */
  lemma {:induction false} PollNKeeps(estimated: real, tstep: real, p: nat)
    requires tstep > 0.0 || estimated <= 0.0
    ensures PollInv(estimated, tstep, p, PollN(estimated, tstep, p))
  {
    if p > 0 {
      PollNKeeps(estimated, tstep, p - 1);
      PollOnceKeeps(estimated, tstep, p - 1, PollN(estimated, tstep, p - 1));
    }
  }

  /** What the polls that find the worker alive promise: the total is the sum
      of the increments and never passes a non-negative estimate; the bar is
      monotone when `tstep` is at most the estimate; nothing but 0 follows
      reaching the estimate; a negative estimate makes one update
      `[estimated]`; an estimate below `tstep` is overshot by
      `tstep - estimated` and corrected within the same first poll, by its
      second update. */
  lemma PollNProps(estimated: real, tstep: real, polls: nat)
    requires tstep > 0.0 || estimated <= 0.0
    ensures var s := PollN(estimated, tstep, polls);
      && s.actual == Sum(s.increments)
      && (s.actual < estimated ==> s.t == tstep && s.t > 0.0)
      && (polls == 0 ==> s.increments == [] && s.t == tstep)
      && (estimated >= 0.0 ==> s.actual <= estimated)
      && (estimated < 0.0 ==> s.increments == (if polls > 0 && tstep > estimated then [estimated] else []))
      && (0.0 < tstep <= estimated ==> Monotone(s.increments, estimated))
      && StillAfter(s.increments, estimated)
      && (0.0 < estimated < tstep && polls > 0 ==>
           |s.increments| >= 2 && s.increments[0] == tstep && s.increments[1] == estimated - tstep)
  {
    PollNKeeps(estimated, tstep, polls);
  }

  /** The polls that find the worker alive: each advances the bar by `t` while
      it is short of the estimate, then clamps `t` so that the bar lands
      exactly on the estimate. */
  method PollWhileAlive(estimated: real, tstep: real, polls: nat)
    returns (increments: seq<real>, actual: real, t: real)
    ensures PollState(increments, actual, t) == PollN(estimated, tstep, polls)
  {
    t := tstep;
    actual := 0.0;
    increments := [];
    var p := 0;
    while p < polls
      invariant 0 <= p <= polls
      invariant PollState(increments, actual, t) == PollN(estimated, tstep, p)
    {
      ghost var s := PollState(increments, actual, t);
      if actual < estimated {
        increments := increments + [t];
        actual := actual + t;
      }
      ghost var s1 := PollState(increments, actual, t);
      assert s1 == Advance(estimated, s);
      if actual + t > estimated {
        t := estimated - actual;
        increments := increments + [t];
        actual := actual + t;
      }
      assert PollState(increments, actual, t) == Clamp(estimated, s1);
      p := p + 1;
    }
  }

  /** The catch-up once the worker is done: step by `t`, clamping the last
      step, until the bar reaches the estimate. */
  method CatchUp(estimated: real, t0: real, increments0: seq<real>, actual0: real)
    returns (increments: seq<real>, actual: real)
    requires actual0 == Sum(increments0)
    requires actual0 < estimated ==> t0 > 0.0
    ensures actual == Sum(increments)
    ensures actual0 < estimated ==> actual == estimated
    ensures actual0 >= estimated ==> actual == actual0 && increments == increments0
    ensures increments0 <= increments
    ensures Monotone(increments0, estimated) ==> Monotone(increments, estimated)
    ensures StillAfter(increments0, estimated) ==> StillAfter(increments, estimated)
  {
    var t := t0;
    actual := actual0;
    increments := increments0;
    ghost var n: nat := 0;
    if actual < estimated {
      n := StepsCover(estimated - actual, t);
    }
    ghost var mono := Monotone(increments0, estimated);
    ghost var still := StillAfter(increments0, estimated);
    while actual < estimated
      invariant actual == Sum(increments)
      invariant actual < estimated ==> t == t0 && estimated - actual < (n as real) * t
      invariant actual0 < estimated ==> actual <= estimated
      invariant actual0 >= estimated ==> actual == actual0 && increments == increments0
      invariant increments0 <= increments
      invariant mono ==> Monotone(increments, estimated)
      invariant still ==> StillAfter(increments, estimated)
      decreases n
    {
      ghost var before := increments;
      if actual + t > estimated {
        t := estimated - actual;
      }
      Step(increments, t, estimated);
      increments := increments + [t];
      actual := actual + t;
      assert before <= increments;
      if actual < estimated {
        StepTaken(estimated - (actual - t), t, n);
        n := n - 1;
      } else {
        n := 0;
      }
    }
  }

  /** The keyword arguments collide with `return_save`'s own parameters
      `function` and `ret`: Python's "got multiple values for argument". */
  predicate KeywordClash<V>(kwargs: map<string, Arg<V>>) {
    "function" in kwargs || "ret" in kwargs
  }

  /** `_progress_bar(function, estimated_time, tstep, ...)`, with the worker
      alive for `polls` polls. `worker` is the call `function(*args, **kwargs)`,
      `None` when it raises (the thread then leaves `ret[0]` at None). The
      thread calls `return_save(function, ret, *args, **kwargs)`, so a keyword
      argument named `function` or `ret` makes that call raise before the
      worker runs, and `ret[0]` stays None then too. The returned increments
      are the arguments of the bar's `update` calls. */
  method RunWithProgress<V, R>(worker: (seq<V>, map<string, Arg<V>>) -> Option<R>,
                               args: seq<V>, kwargs: map<string, Arg<V>>,
                               estimated: real, tstep: real, polls: nat)
    returns (ret: Option<R>, increments: seq<real>, actual: real)
    requires tstep > 0.0 || estimated <= 0.0
    ensures KeywordClash(kwargs) ==> ret == None
    ensures !KeywordClash(kwargs) ==> ret == worker(args, InjectHandle(kwargs))
    ensures actual == Sum(increments)
    ensures estimated >= 0.0 ==> actual == estimated
    ensures estimated < 0.0 ==> increments == (if polls > 0 && tstep > estimated then [estimated] else [])
    ensures 0.0 < tstep <= estimated ==> Monotone(increments, estimated)
    ensures StillAfter(increments, estimated)
    ensures 0.0 < estimated < tstep && polls > 0 ==>
      |increments| >= 2 && increments[0] == tstep && increments[1] == estimated - tstep
  {
    if KeywordClash(kwargs) {
      ret := None;
    } else {
      ret := worker(args, InjectHandle(kwargs));
    }
    var polled, a, t := PollWhileAlive(estimated, tstep, polls);
    PollNProps(estimated, tstep, polls);
    increments, actual := CatchUp(estimated, t, polled, a);
  }

  /** The bar's state that the built-in print handle changes. */
  class ProgressBar {
    /** The `tqdm_kwargs` the bar was built from, which `print_with_bar`
        reads again. */
    const tqdmKwargs: map<string, string>
    var barFormat: Option<string>
    var lines: seq<string>

    /** `tqdm.tqdm(total=estimated_time, **tqdm_kwargs)`, as far as printing goes. */
    constructor(tqdmKwargs: map<string, string>)
      ensures this.tqdmKwargs == tqdmKwargs
      ensures barFormat == (if "bar_format" in tqdmKwargs then Some(tqdmKwargs["bar_format"]) else None)
      ensures lines == []
    {
      this.tqdmKwargs := tqdmKwargs;
      barFormat := if "bar_format" in tqdmKwargs then Some(tqdmKwargs["bar_format"]) else None;
      lines := [];
    }

    /** `print_with_bar(msg)`: the bar's format becomes the caller's original
        `bar_format` followed by `msg`, replacing any earlier message; a
        KeyError when `tqdm_kwargs` has no `bar_format`. */
    method PrintWithBar(msg: string) returns (r: Result<(), string>)
      modifies this
      ensures "bar_format" in tqdmKwargs ==> r.Success? && barFormat == Some(tqdmKwargs["bar_format"] + msg)
      ensures "bar_format" !in tqdmKwargs ==> r == Failure("bar_format") && barFormat == old(barFormat)
      ensures lines == old(lines)
    {
      if "bar_format" in tqdmKwargs {
        barFormat := Some(tqdmKwargs["bar_format"] + msg);
        r := Success(());
      } else {
        r := Failure("bar_format");
      }
    }

    /** `print_in_line(msg)`: `pbar.write(msg)`, a line above the bar. */
    method PrintInLine(msg: string)
      modifies this
      ensures lines == old(lines) + [msg]
      ensures barFormat == old(barFormat)
    {
      lines := lines + [msg];
    }
  }
}
