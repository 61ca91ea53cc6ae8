/** The sound callback: emulator samples in the output buffer, timed callbacks between
    them. Sample counts round up and times round down, so nothing fires early. */
module OplSdl {
  import opened Bits
  import opened OplQueue

  const OPL_SECOND: nat := 1000000

  /** What a callback does to the schedule: it asks for another callback, us microseconds from
      now, or divides all waits by a factor. */
  datatype Action = Ask(us: nat, callback: nat, data: nat) | Tempo(factor: Factor)

  /** A callback that was invoked, with the clock, the pause offset and the number of emulator samples
      generated at that moment. */
  datatype Fired = Fired(entry: Entry, at: nat, offset: nat, sample: nat)

  /** Samples until a wait of us microseconds is over, rounded up. */
  function SamplesFor(us: nat, freq: nat): nat {
    (us * freq + OPL_SECOND - 1) / OPL_SECOND
  }

  /** Microseconds that nsamples take, rounded down. */
  function TimeOf(nsamples: nat, freq: nat): nat
    requires freq > 0
  {
    nsamples * OPL_SECOND / freq
  }

  /** A wait shorter than one sample period. */
  predicate UnderSample(us: nat, freq: nat) {
    us * freq < OPL_SECOND
  }

  /** Fired no earlier than due, and less than one sample period after. */
  ghost predicate Punctual(f: Fired, freq: nat) {
    f.entry.time + f.offset <= f.at && UnderSample(f.at - (f.entry.time + f.offset), freq)
  }

  /** Run between the samples that its moment falls between: the clock, which stood at start before
      sample first, is behind the samples by at most a microsecond per callback that ran earlier. */
  ghost predicate InPlace(f: Fired, start: nat, first: nat, earlier: nat, freq: nat)
    requires freq > 0
  {
    && start <= f.at && first <= f.sample
    && f.at - start <= TimeOf(f.sample - first, freq) <= f.at - start + earlier
  }

  ghost predicate AllInPlace(fired: seq<Fired>, n: nat, start: nat, first: nat, freq: nat)
    requires freq > 0
  {
    forall k :: n <= k < |fired| ==> InPlace(fired[k], start, first, k - n, freq)
  }

  lemma MoreInPlace(soFar: seq<Fired>, fired: seq<Fired>, n: nat, start: nat, first: nat, at: nat, filled: nat,
                    freq: nat)
    requires freq > 0 && n <= |soFar| && soFar <= fired && AllInPlace(soFar, n, start, first, freq)
    requires forall k :: |soFar| <= k < |fired| ==> fired[k].at == at && fired[k].sample == first + filled
    requires start <= at && at - start <= TimeOf(filled, freq) <= at - start + (|soFar| - n)
    ensures AllInPlace(fired, n, start, first, freq)
  {
    hide TimeOf;
    assert forall k :: n <= k < |soFar| ==> fired[k] == soFar[k];
  }

  /** The two roundings compose: the wait is over, by less than one sample. */
  lemma RoundingsCompose(us: nat, freq: nat)
    requires freq > 0
    ensures var t := TimeOf(SamplesFor(us, freq), freq); t >= us && UnderSample(t - us, freq)
  {
    var n := SamplesFor(us, freq);
    var t := TimeOf(n, freq);
    var x := us * freq;
    assert x <= n * OPL_SECOND <= x + OPL_SECOND - 1;
    assert n * OPL_SECOND == t * freq + n * OPL_SECOND % freq;
    assert (t + 1) * freq == t * freq + freq;
    assert (t + 1) * freq > us * freq;
    LessFactor(us, t + 1, freq);
    assert (t - us) * freq == t * freq - us * freq;
  }

  lemma LessFactor(a: nat, b: nat, c: nat)
    ensures a * c < b * c ==> a < b
  {
    if a >= b {
      assert a * c >= b * c;
    }
  }

  lemma TimeMonotone(m: nat, n: nat, freq: nat)
    requires m <= n && freq > 0
    ensures TimeOf(m, freq) <= TimeOf(n, freq)
  {
    var a, b := TimeOf(m, freq), TimeOf(n, freq);
    var x, y := m * OPL_SECOND, n * OPL_SECOND;
    assert a * freq <= x <= y < (b + 1) * freq;
    LessFactor(a, b + 1, freq);
  }

  lemma SamplesPositive(us: nat, freq: nat)
    requires us > 0 && freq > 0
    ensures SamplesFor(us, freq) > 0
  {
    assert us * freq >= 1;
  }

  // ---------- the schedule without the heap ----------

  /** The same entries with their offsets from a given time divided by a factor. */
  ghost predicate Rescaled(m: multiset<Entry>, m': multiset<Entry>, time: nat, factor: Factor) {
    exists s: seq<Entry>, t: seq<Entry> :: Pairwise(s, t, time, factor) && multiset(s) == m && multiset(t) == m'
  }

  ghost predicate Pairwise(s: seq<Entry>, t: seq<Entry>, time: nat, factor: Factor) {
    |s| == |t| && forall k :: 0 <= k < |s| ==> Moved(s[k], t[k], time, factor)
  }

  /** The wait is divided by the factor; what is overdue is due at once. */
  predicate Moved(e: Entry, e': Entry, time: nat, factor: Factor) {
    && e' == e.(time := e'.time)
    && if e.time >= time then Divided(e.time - time, factor, e'.time - time) else e'.time == time
  }

  lemma MovedIff(e: Entry, e': Entry, time: nat, factor: Factor)
    ensures Moved(e, e', time, factor) <==> e' == e.(time := Scaled(time, factor, e.time, Saturating))
  {
    hide Scaled, Divided;
    var t := Scaled(time, factor, e.time, Saturating);
    ScaledIs(time, factor, e.time, Saturating);
    if Moved(e, e', time, factor) && e.time >= time {
      DividedInOrder(e.time - time, e.time - time, factor, e'.time - time, t - time);
      DividedInOrder(e.time - time, e.time - time, factor, t - time, e'.time - time);
    }
  }

  /** One action at clock at, with m waiting before and m' after. A full queue refuses. */
  ghost predicate Acted(m: multiset<Entry>, a: Action, at: nat, offset: nat, m': multiset<Entry>)
    requires offset <= at
  {
    match a
    case Ask(us, callback, data) =>
      m' == if |m| >= MAX_OPL_QUEUE then m else m + multiset{Entry(callback, data, at - offset + us)}
    case Tempo(factor) => Rescaled(m, m', at, factor)
  }

  /** All actions of a callback, in order. */
  ghost predicate ActedAll(m: multiset<Entry>, acts: seq<Action>, at: nat, offset: nat, m': multiset<Entry>)
    requires offset <= at
    decreases |acts|, 0
  {
    if acts == [] then m' == m else ActedThen(m, acts[..|acts| - 1], acts[|acts| - 1], at, offset, m')
  }

  ghost predicate ActedThen(m: multiset<Entry>, front: seq<Action>, last: Action, at: nat, offset: nat,
                            m': multiset<Entry>)
    requires offset <= at
    decreases |front|, 1
  {
    exists mid :: ActedAll(m, front, at, offset, mid) && Acted(mid, last, at, offset, m')
  }

  /** The one callback of m that is due first runs, being due, and m' is waiting after it. */
  ghost predicate Turn(m: multiset<Entry>, f: Fired, acts: seq<Action>, m': multiset<Entry>) {
    && f.entry in m && f.entry.time + f.offset <= f.at
    && (forall e :: e in m ==> f.entry.time <= e.time)
    && ActedAll(m - multiset{f.entry}, acts, f.at, f.offset, m')
  }

  /** From m to m' by running the callbacks from the n-th on and nothing else. */
  ghost predicate Turns(m: multiset<Entry>, fired: seq<Fired>, n: nat, script: nat -> seq<Action>, m': multiset<Entry>)
    decreases |fired|, 0
  {
    if |fired| <= n then |fired| == n && m' == m
    else TurnsThen(m, fired[..|fired| - 1], n, script, fired[|fired| - 1], m')
  }

  ghost predicate TurnsThen(m: multiset<Entry>, front: seq<Fired>, n: nat, script: nat -> seq<Action>, last: Fired,
                            m': multiset<Entry>)
    decreases |front|, 1
  {
    exists mid :: Turns(m, front, n, script, mid) && Turn(mid, last, script(|front|), m')
  }

  lemma TurnsSnoc(m: multiset<Entry>, fired: seq<Fired>, n: nat, script: nat -> seq<Action>, mid: multiset<Entry>,
                  f: Fired, m': multiset<Entry>)
    requires n <= |fired| && Turns(m, fired, n, script, mid) && Turn(mid, f, script(|fired|), m')
    ensures Turns(m, fired + [f], n, script, m')
  {
    hide Turn;
    assert (fired + [f])[..|fired|] == fired;
    assert TurnsThen(m, fired, n, script, f, m');
  }

  lemma {:induction false} TurnsTogether(m: multiset<Entry>, fired: seq<Fired>, n: nat, script: nat -> seq<Action>,
                                         mid: multiset<Entry>, fired': seq<Fired>, m': multiset<Entry>)
    requires n <= |fired| && Turns(m, fired, n, script, mid)
    requires fired <= fired' && Turns(mid, fired', |fired|, script, m')
    ensures Turns(m, fired', n, script, m')
    decreases |fired'|
  {
    hide Turn;
    if |fired'| == |fired| {
      assert fired' == fired;
    } else {
      var k := |fired'| - 1;
      var front, f := fired'[..k], fired'[k];
      assert TurnsThen(mid, front, |fired|, script, f, m');
      var near :| Turns(mid, front, |fired|, script, near) && Turn(near, f, script(k), m');
      TurnsTogether(m, fired, n, script, mid, front, near);
      TurnsSnoc(m, front, n, script, near, f, m');
      assert front + [f] == fired';
    }
  }

  // ---------- what a run conserves ----------

  /** How many callbacks the actions ask for. */
  function Asks(acts: seq<Action>): nat {
    if acts == [] then 0 else Asks(acts[..|acts| - 1]) + (if acts[|acts| - 1].Ask? then 1 else 0)
  }

  function AsksFrom(script: nat -> seq<Action>, n: nat, upTo: nat): nat {
    if upTo <= n then 0 else AsksFrom(script, n, upTo - 1) + Asks(script(upTo - 1))
  }

  /** The entries they ask for, when made at a given time. */
  function Asked(acts: seq<Action>, at: nat, offset: nat): multiset<Entry>
    requires offset <= at
  {
    if acts == [] then multiset{}
    else
      Asked(acts[..|acts| - 1], at, offset)
      + match acts[|acts| - 1]
        case Ask(us, callback, data) => multiset{Entry(callback, data, at - offset + us)}
        case Tempo(_) => multiset{}
  }

  ghost function AskedFrom(fired: seq<Fired>, n: nat, script: nat -> seq<Action>): multiset<Entry>
    requires forall k :: n <= k < |fired| ==> fired[k].offset <= fired[k].at
  {
    if |fired| <= n then multiset{}
    else
      var k := |fired| - 1;
      AskedFrom(fired[..k], n, script) + Asked(script(k), fired[k].at, fired[k].offset)
  }

  function RanFrom(fired: seq<Fired>, n: nat): multiset<Entry> {
    if |fired| <= n then multiset{} else RanFrom(fired[..|fired| - 1], n) + multiset{fired[|fired| - 1].entry}
  }

  predicate SteadyFrom(script: nat -> seq<Action>, n: nat, upTo: nat) {
    forall k :: n <= k < upTo ==> Steady(script(k))
  }

  predicate Steady(acts: seq<Action>) {
    forall i :: 0 <= i < |acts| ==> acts[i].Ask?
  }

  lemma RescaledSize(m: multiset<Entry>, m': multiset<Entry>, time: nat, factor: Factor)
    requires Rescaled(m, m', time, factor)
    ensures |m'| == |m|
  {
    var s, t :| Pairwise(s, t, time, factor) && multiset(s) == m && multiset(t) == m';
    assert |multiset(s)| == |s| && |multiset(t)| == |t|;
  }

  /** Actions add what they ask for, as long as there is room, and take nothing away. */
  lemma {:induction false} ActsConserve(m: multiset<Entry>, acts: seq<Action>, at: nat, offset: nat,
                                        m': multiset<Entry>)
    requires offset <= at && ActedAll(m, acts, at, offset, m')
    ensures |m| <= |m'| <= |m| + Asks(acts)
    ensures |m| + Asks(acts) <= MAX_OPL_QUEUE ==> |m'| == |m| + Asks(acts)
    ensures Steady(acts) ==> m' <= m + Asked(acts, at, offset)
    ensures Steady(acts) && |m| + Asks(acts) <= MAX_OPL_QUEUE ==> m' == m + Asked(acts, at, offset)
    decreases |acts|
  {
    hide Rescaled;
    if acts != [] {
      var k := |acts| - 1;
      var front, a := acts[..k], acts[k];
      assert ActedThen(m, front, a, at, offset, m');
      var mid :| ActedAll(m, front, at, offset, mid) && Acted(mid, a, at, offset, m');
      ActsConserve(m, front, at, offset, mid);
      if a.Tempo? {
        RescaledSize(mid, m', at, a.factor);
      }
    }
  }

  /** The same for one callback, which takes itself away. */
  lemma TurnConserves(m: multiset<Entry>, f: Fired, acts: seq<Action>, m': multiset<Entry>)
    requires Turn(m, f, acts, m')
    ensures |m'| + 1 <= |m| + Asks(acts)
    ensures |m| + Asks(acts) <= MAX_OPL_QUEUE ==> |m'| + 1 == |m| + Asks(acts)
    ensures Steady(acts) ==> m' + multiset{f.entry} <= m + Asked(acts, f.at, f.offset)
    ensures Steady(acts) && |m| + Asks(acts) <= MAX_OPL_QUEUE ==>
              m' + multiset{f.entry} == m + Asked(acts, f.at, f.offset)
  {
    hide ActedAll, Asks, Asked, Steady;
    var left := m - multiset{f.entry};
    assert m == left + multiset{f.entry};
    ActsConserve(left, acts, f.at, f.offset, m');
  }

  /** Nothing is lost and nothing appears: what is waiting after a run, and what has run, is what was
      waiting before and what was asked for, but for requests made of a full queue. Where the tempo
      does not change this holds entry by entry, otherwise in number. */
  lemma {:induction false} RunConserves(m: multiset<Entry>, fired: seq<Fired>, n: nat, script: nat -> seq<Action>,
                                        m': multiset<Entry>)
    requires n <= |fired| && Turns(m, fired, n, script, m')
    ensures forall k :: n <= k < |fired| ==> fired[k].offset <= fired[k].at
    ensures |m'| + (|fired| - n) <= |m| + AsksFrom(script, n, |fired|)
    ensures |m| + AsksFrom(script, n, |fired|) <= MAX_OPL_QUEUE ==>
              |m'| + (|fired| - n) == |m| + AsksFrom(script, n, |fired|)
    ensures SteadyFrom(script, n, |fired|) ==> m' + RanFrom(fired, n) <= m + AskedFrom(fired, n, script)
    ensures SteadyFrom(script, n, |fired|) && |m| + AsksFrom(script, n, |fired|) <= MAX_OPL_QUEUE ==>
              m' + RanFrom(fired, n) == m + AskedFrom(fired, n, script)
    decreases |fired|
  {
    hide ActedAll, Asks, Asked, Steady;
    if |fired| > n {
      var k := |fired| - 1;
      var front, f := fired[..k], fired[k];
      assert TurnsThen(m, front, n, script, f, m');
      var mid :| Turns(m, front, n, script, mid) && Turn(mid, f, script(k), m');
      RunConserves(m, front, n, script, mid);
      TurnConserves(mid, f, script(k), m');
      hide Turn, Turns;
      if SteadyFrom(script, n, |fired|) {
        Exchange(mid, RanFrom(front, n), m, AskedFrom(front, n, script), m', multiset{f.entry},
                 Asked(script(k), f.at, f.offset));
      }
    }
  }

  lemma Exchange(mid: multiset<Entry>, ran: multiset<Entry>, m: multiset<Entry>, asked: multiset<Entry>,
                 m': multiset<Entry>, one: multiset<Entry>, more: multiset<Entry>)
    ensures mid + ran <= m + asked && m' + one <= mid + more ==> m' + (ran + one) <= m + (asked + more)
    ensures mid + ran == m + asked && m' + one == mid + more ==> m' + (ran + one) == m + (asked + more)
  {
    if mid + ran <= m + asked && m' + one <= mid + more {
      forall e: Entry ensures (m' + (ran + one))[e] <= (m + (asked + more))[e] {
        assert (mid + ran)[e] <= (m + asked)[e] && (m' + one)[e] <= (mid + more)[e];
      }
    }
    if mid + ran == m + asked && m' + one == mid + more {
      forall e: Entry ensures (m' + (ran + one))[e] == (m + (asked + more))[e] {
        assert (mid + ran)[e] == (m + asked)[e] && (m' + one)[e] == (mid + more)[e];
      }
    }
  }

  // ---------- timing ----------

  /** Nothing waiting in m is due before the limit by a sample or more. */
  ghost predicate OnTime(m: multiset<Entry>, limit: int, freq: nat) {
    forall e :: e in m && e.time <= limit ==> UnderSample(limit - e.time, freq)
  }

  /** The entries of m that are due by a limit, and the others. */
  ghost predicate Split(m: multiset<Entry>, limit: int, due: multiset<Entry>, later: multiset<Entry>) {
    && m == due + later
    && (forall e :: e in due ==> e.time <= limit) && forall e :: e in later ==> e.time > limit
  }

  lemma {:induction false} SplitDue(m: multiset<Entry>, limit: int)
    returns (due: multiset<Entry>, later: multiset<Entry>)
    ensures Split(m, limit, due, later)
    decreases |m|
  {
    if m == multiset{} {
      due, later := multiset{}, multiset{};
    } else {
      var e :| e in m;
      due, later := SplitDue(m - multiset{e}, limit);
      assert m == m - multiset{e} + multiset{e};
      due, later := SplitMore(m - multiset{e}, limit, due, later, e);
    }
  }

  lemma SplitMore(m: multiset<Entry>, limit: int, due: multiset<Entry>, later: multiset<Entry>, e: Entry)
    returns (due': multiset<Entry>, later': multiset<Entry>)
    requires Split(m, limit, due, later)
    ensures Split(m + multiset{e}, limit, due', later') && |due'| == |due| + if e.time <= limit then 1 else 0
  {
    if e.time <= limit {
      due', later' := due + multiset{e}, later;
    } else {
      due', later' := due, later + multiset{e};
    }
  }

  lemma SplitOnce(m: multiset<Entry>, limit: int, due: multiset<Entry>, later: multiset<Entry>,
                  due': multiset<Entry>, later': multiset<Entry>)
    requires Split(m, limit, due, later) && Split(m, limit, due', later')
    ensures due == due' && later == later'
  {
    forall e: Entry ensures due[e] == due'[e] && later[e] == later'[e] {
      assert m[e] == due[e] + later[e] == due'[e] + later'[e];
      assert e.time > limit ==> due[e] == 0 && due'[e] == 0;
      assert e.time <= limit ==> later[e] == 0 && later'[e] == 0;
    }
  }

  /** An action that makes nothing due at once: it asks for a later callback or slows down. */
  predicate Calm(a: Action) {
    match a
    case Ask(us, _, _) => us > 0
    case Tempo(factor) => factor <= 1.0
  }

  predicate AllCalm(acts: seq<Action>) {
    forall i :: 0 <= i < |acts| ==> Calm(acts[i])
  }

  /** Rescaling leaves everything due at the given time or later. */
  lemma RescaledLater(m: multiset<Entry>, m': multiset<Entry>, time: nat, factor: Factor)
    requires Rescaled(m, m', time, factor)
    ensures forall e :: e in m' ==> e.time >= time
  {
    var s, t :| Pairwise(s, t, time, factor) && multiset(s) == m && multiset(t) == m';
    forall e | e in m' ensures e.time >= time {
      assert e in t;
    }
  }

  lemma {:induction false} SlowerSplit(s: seq<Entry>, t: seq<Entry>, time: nat, factor: Factor, limit: int)
    returns (due: multiset<Entry>, later: multiset<Entry>, due': multiset<Entry>, later': multiset<Entry>)
    requires Pairwise(s, t, time, factor) && factor <= 1.0 && limit <= time
    ensures Split(multiset(s), limit, due, later) && Split(multiset(t), limit, due', later') && |due'| <= |due|
  {
    hide Scaled;
    if s == [] {
      due, later, due', later' := multiset{}, multiset{}, multiset{}, multiset{};
    } else {
      var k := |s| - 1;
      due, later, due', later' := SlowerSplit(s[..k], t[..k], time, factor, limit);
      assert s == s[..k] + [s[k]] && t == t[..k] + [t[k]];
      hide Split, Pairwise;
      if s[k].time > time {
        SlowerStaysLater(time, factor, s[k].time);
      }
      due, later := SplitMore(multiset(s[..k]), limit, due, later, s[k]);
      due', later' := SplitMore(multiset(t[..k]), limit, due', later', t[k]);
    }
  }

  lemma SlowerKeepsDue(m: multiset<Entry>, m': multiset<Entry>, time: nat, factor: Factor, limit: int,
                       due: multiset<Entry>, later: multiset<Entry>, due': multiset<Entry>, later': multiset<Entry>)
    requires Rescaled(m, m', time, factor) && factor <= 1.0 && limit <= time
    requires Split(m, limit, due, later) && Split(m', limit, due', later')
    ensures |due'| <= |due|
  {
    hide Split, Pairwise;
    var s, t :| Pairwise(s, t, time, factor) && multiset(s) == m && multiset(t) == m';
    var d, l, d', l' := SlowerSplit(s, t, time, factor, limit);
    SplitOnce(m, limit, due, later, d, l);
    SplitOnce(m', limit, due', later', d', l');
  }

  /** The actions of a callback leave nothing late, and calm ones make nothing due. */
  lemma {:induction false} ActsOnTime(m: multiset<Entry>, acts: seq<Action>, at: nat, offset: nat, m': multiset<Entry>,
                                      freq: nat)
    requires offset <= at && ActedAll(m, acts, at, offset, m') && OnTime(m, at - offset, freq)
    ensures OnTime(m', at - offset, freq)
    decreases |acts|
  {
    hide Acted, OnTime;
    if acts != [] {
      var k := |acts| - 1;
      var front, a := acts[..k], acts[k];
      assert ActedThen(m, front, a, at, offset, m');
      var mid :| ActedAll(m, front, at, offset, mid) && Acted(mid, a, at, offset, m');
      ActsOnTime(m, front, at, offset, mid, freq);
      ActOnTime(mid, a, at, offset, m', freq);
    }
  }

  lemma ActOnTime(m: multiset<Entry>, a: Action, at: nat, offset: nat, m': multiset<Entry>, freq: nat)
    requires offset <= at && Acted(m, a, at, offset, m') && OnTime(m, at - offset, freq)
    ensures OnTime(m', at - offset, freq)
  {
    hide Rescaled, UnderSample;
    NoWaitIsShort(freq);
    if a.Tempo? {
      RescaledLater(m, m', at, a.factor);
    }
  }

  lemma NoWaitIsShort(freq: nat)
    ensures UnderSample(0, freq)
  {
  }

  lemma {:induction false} CalmActs(m: multiset<Entry>, acts: seq<Action>, at: nat, offset: nat, m': multiset<Entry>,
                                    due: multiset<Entry>, later: multiset<Entry>, due': multiset<Entry>,
                                    later': multiset<Entry>)
    requires offset <= at && ActedAll(m, acts, at, offset, m') && AllCalm(acts)
    requires Split(m, at - offset, due, later) && Split(m', at - offset, due', later')
    ensures |due'| <= |due|
    decreases |acts|
  {
    hide Split, Rescaled;
    if acts == [] {
      SplitOnce(m, at - offset, due, later, due', later');
    } else {
      var k := |acts| - 1;
      var front, a := acts[..k], acts[k];
      assert ActedThen(m, front, a, at, offset, m');
      var mid :| ActedAll(m, front, at, offset, mid) && Acted(mid, a, at, offset, m');
      var d, l := SplitDue(mid, at - offset);
      CalmActs(m, front, at, offset, mid, due, later, d, l);
      assert Calm(a);
      CalmAct(mid, a, at, offset, m', d, l, due', later');
    }
  }

  lemma CalmAct(m: multiset<Entry>, a: Action, at: nat, offset: nat, m': multiset<Entry>,
                due: multiset<Entry>, later: multiset<Entry>, due': multiset<Entry>, later': multiset<Entry>)
    requires offset <= at && Acted(m, a, at, offset, m') && Calm(a)
    requires Split(m, at - offset, due, later) && Split(m', at - offset, due', later')
    ensures |due'| <= |due|
  {
    hide Rescaled, Split;
    match a
    case Ask(us, callback, data) =>
      if |m| < MAX_OPL_QUEUE {
        var d, l := SplitMore(m, at - offset, due, later, Entry(callback, data, at - offset + us));
        SplitOnce(m', at - offset, due', later', d, l);
      } else {
        SplitOnce(m, at - offset, due, later, due', later');
      }
    case Tempo(factor) =>
      SlowerKeepsDue(m, m', at, factor, at - offset, due, later, due', later');
  }

  // ---------- the driver ----------

  class Driver {
    const queue: Queue
    const freq: nat
    /** What the n-th callback to be invoked does to the schedule. */
    const script: nat -> seq<Action>
    var currentTime: nat
    var pauseOffset: nat
    var paused: bool
    /** The callbacks invoked so far, and the emulator samples generated so far. */
    var fired: seq<Fired>
    var generated: nat

    ghost predicate Ready()
      reads this, queue, queue.entries
    {
      queue.Valid() && freq > 0 && pauseOffset <= currentTime
    }

    /** Nothing waiting is overdue. */
    ghost predicate Valid()
      reads this, queue, queue.entries
    {
      Ready() && forall e :: e in queue.Contents() ==> e.time + pauseOffset >= currentTime
    }

    /** However many callbacks have run, as many in a row as the queue can hold are still to come, from
        the quiet(n)-th on, that make nothing due at once. Without that a callback that always asks to
        run again immediately would never let the scheduler return. */
    ghost predicate Quiets(quiet: nat -> nat) {
      forall n: nat :: quiet(n) >= n && forall k :: quiet(n) <= k < quiet(n) + MAX_OPL_QUEUE ==> AllCalm(script(k))
    }

    constructor (queue: Queue, freq: nat, script: nat -> seq<Action>)
      requires queue.Valid() && queue.Contents() == multiset{} && freq > 0
      ensures Valid() && this.queue == queue && this.freq == freq && this.script == script
      ensures fired == [] && generated == 0 && !paused && currentTime == pauseOffset == 0
    {
      this.queue, this.freq, this.script := queue, freq, script;
      currentTime, pauseOffset, paused, fired, generated := 0, 0, false, [], 0;
    }

    /** Asks for a callback; what is waiting already is not touched. */
    method SetCallback(us: nat, callback: nat, data: nat)
      requires Ready()
      modifies queue`numEntries, queue.entries
      ensures Ready() && (old(Valid()) ==> Valid())
      ensures Acted(old(queue.Contents()), Ask(us, callback, data), currentTime, pauseOffset, queue.Contents())
    {
      hide Heap;
      queue.Push(callback, data, currentTime - pauseOffset + us);
    }

    method SetPaused(paused: bool)
      requires Valid()
      modifies this`paused
      ensures Valid() && this.paused == paused
    {
      this.paused := paused;
    }

    /** Divides all waits, from the clock that also runs while paused. */
    method AdjustCallbacks(factor: Factor)
      requires Ready()
      modifies queue.entries
      ensures Valid() && Acted(old(queue.Contents()), Tempo(factor), currentTime, pauseOffset, queue.Contents())
    {
      hide Heap, Scaled, Rescaled;
      ghost var s := queue.entries[..queue.numEntries];
      queue.AdjustCallbacks(currentTime, factor, Saturating);
      ghost var t := queue.entries[..queue.numEntries];
      RescaledBy(s, t, currentTime, factor);
      RescaledLater(multiset(s), multiset(t), currentTime, factor);
    }

    /** Runs the n-th callback. */
    method Invoke(n: nat)
      requires Ready()
      modifies queue`numEntries, queue.entries
      ensures Ready() && ActedAll(old(queue.Contents()), script(n), currentTime, pauseOffset, queue.Contents())
    {
      hide Queue.Valid, Queue.Contents, Acted;
      var acts := script(n);
      var i := 0;
      while i < |acts|
        invariant i <= |acts| && Ready()
        invariant ActedAll(old(queue.Contents()), acts[..i], currentTime, pauseOffset, queue.Contents())
      {
        assert acts[..i + 1][..i] == acts[..i];
        match acts[i] {
          case Ask(us, callback, data) => SetCallback(us, callback, data);
          case Tempo(factor) => AdjustCallbacks(factor);
        }
        i := i + 1;
      }
      assert acts[..i] == acts;
    }

    /** Invoked at this moment. */
    ghost predicate Now(f: Fired)
      reads this`currentTime, this`pauseOffset, this`generated
    {
      f.at == currentTime && f.offset == pauseOffset && f.sample == generated
    }

    /** Takes the callback that is due first and runs it. */
    method FireFirst()
      requires Ready() && !queue.IsEmpty() && queue.Peek() + pauseOffset <= currentTime
      modifies this`fired, queue`numEntries, queue.entries
      ensures Ready() && |fired| == |old(fired)| + 1
              && fired == old(fired) + [fired[|old(fired)|]] && Now(fired[|old(fired)|])
      ensures Turn(old(queue.Contents()), fired[|old(fired)|], script(|old(fired)|), queue.Contents())
    {
      hide Heap, ActedAll, Queue.Contents, Queue.Valid, Queue.Peek;
      ghost var m := queue.Contents();
      var ok, e := queue.Pop();
      assert queue.Contents() == m - multiset{e};
      Invoke(|fired|);
      fired := fired + [Fired(e, currentTime, pauseOffset, generated)];
    }

    /** Runs what is due, first come first, until nothing is. */
    method RunDue(ghost quiet: nat -> nat)
      requires Ready() && Quiets(quiet) && OnTime(queue.Contents(), currentTime - pauseOffset, freq)
      modifies this`fired, queue`numEntries, queue.entries
      ensures Ready() && AllLater()
      ensures old(fired) <= fired && Turns(old(queue.Contents()), fired, |old(fired)|, script, queue.Contents())
      ensures forall k :: |old(fired)| <= k < |fired| ==> Punctual(fired[k], freq)
      ensures forall k :: |old(fired)| <= k < |fired| ==> Now(fired[k])
      ensures |fired| > |old(fired)| <==>
        exists e :: e in old(queue.Contents()) && e.time + pauseOffset <= currentTime
    {
      hide Queue.Valid, Queue.Contents, Queue.Peek, UnderSample, Split, Turn, Turns, OnTime, Punctual, AllCalm;
      ghost var before, n := queue.Contents(), |fired|;
      ghost var limit: int := currentTime - pauseOffset;
      ghost var window := quiet(n);
      ghost var due, later := SplitDue(before, limit);
      ghost var some := exists e :: e in before && e.time <= limit;
      DueFits(due, later);
      NoTurns(before, fired, script);
      while !queue.IsEmpty() && currentTime >= queue.Peek() + pauseOffset
        invariant Ready() && OnTime(queue.Contents(), limit, freq) && Split(queue.Contents(), limit, due, later)
        invariant n <= |fired| && old(fired) <= fired && Turns(before, fired, n, script, queue.Contents())
        invariant forall k :: n <= k < |fired| ==> Punctual(fired[k], freq)
        invariant forall k :: n <= k < |fired| ==> Now(fired[k])
        invariant if |fired| > n then some else queue.Contents() == before
        invariant |fired| >= window ==> |fired| - window + |due| <= MAX_OPL_QUEUE
        decreases if |fired| < window then window - |fired| else 0, |due|
      {
        ghost var m, k, soFar := queue.Contents(), |fired|, fired;
        FireFirst();
        ghost var due', later' := SplitDue(queue.Contents(), limit);
        TurnOnTime(m, fired[k], script(k), queue.Contents(), limit, freq);
        TurnsSnoc(before, soFar, n, script, m, fired[k], queue.Contents());
        TurnDue(m, fired[k], script(k), queue.Contents(), limit, due, later, due', later');
        DueFits(due', later');
        due, later := due', later';
      }
      AllIsLater();
    }

    lemma DueFits(due: multiset<Entry>, later: multiset<Entry>)
      requires queue.Valid() && Split(queue.Contents(), currentTime - pauseOffset, due, later)
      ensures |due| <= MAX_OPL_QUEUE
    {
      hide Heap;
      assert |queue.Contents()| == |due| + |later|;
    }

    ghost predicate AllLater()
      reads this, queue, queue.entries
    {
      forall e :: e in queue.Contents() ==> e.time + pauseOffset > currentTime
    }

    lemma AllIsLater()
      requires queue.Valid() && (queue.IsEmpty() || currentTime < queue.Peek() + pauseOffset)
      ensures AllLater()
    {
    }

    /** Advances the clock and runs what is due. */
    method AdvanceTime(nsamples: nat, ghost quiet: nat -> nat)
      requires Ready() && Quiets(quiet)
      requires var t := TimeOf(nsamples, freq);
               OnTime(queue.Contents(), currentTime + t - (pauseOffset + if paused then t else 0), freq)
      modifies this`currentTime, this`pauseOffset, this`fired, queue`numEntries, queue.entries
      ensures Ready() && AllLater()
      ensures currentTime == old(currentTime) + TimeOf(nsamples, freq)
      ensures pauseOffset == old(pauseOffset) + if paused then TimeOf(nsamples, freq) else 0
      ensures old(fired) <= fired && Turns(old(queue.Contents()), fired, |old(fired)|, script, queue.Contents())
      ensures forall k :: |old(fired)| <= k < |fired| ==> Punctual(fired[k], freq)
      ensures forall k :: |old(fired)| <= k < |fired| ==> Now(fired[k])
      ensures |fired| > |old(fired)| <==>
        exists e :: e in old(queue.Contents()) && e.time + pauseOffset <= currentTime
    {
      hide Heap, TimeOf, UnderSample, Turns, Punctual, OnTime, AllCalm;
      var us := TimeOf(nsamples, freq);
      currentTime := currentTime + us;
      if paused {
        pauseOffset := pauseOffset + us;
      }
      RunDue(quiet);
    }

    /** Samples from the emulator. */
    method FillBuffer(nsamples: nat) returns (samples: seq<nat>)
      requires nsamples < freq
      modifies this`generated
      ensures generated == old(generated) + nsamples && samples == Samples(old(generated), nsamples)
    {
      samples := Samples(generated, nsamples);
      generated := generated + nsamples;
    }

    /** How many samples to generate before the clock is advanced. */
    function NextChunk(left: nat): (n: nat)
      requires Valid() && left > 0
      reads this, queue, queue.entries
      ensures n <= left
    {
      if paused || queue.IsEmpty() then left
      else
        PeekIsWaiting();
        var n := SamplesFor(queue.Peek() + pauseOffset - currentTime, freq);
        if n > left then left else n
    }

    /** The unsigned subtraction of the current time from the next due time cannot wrap. */
    lemma PeekIsWaiting()
      requires Valid() && !queue.IsEmpty()
      ensures queue.Peek() + pauseOffset >= currentTime
    {
    }

    /** After the next chunk, nothing waiting is late by a sample or more. */
    lemma ChunkIsOnTime(left: nat)
      requires Valid() && left > 0
      ensures var t := TimeOf(NextChunk(left), freq);
              OnTime(queue.Contents(), currentTime + t - (pauseOffset + if paused then t else 0), freq)
      ensures !paused && !queue.IsEmpty() && NextChunk(left) < left ==>
        currentTime + TimeOf(NextChunk(left), freq) >= queue.Peek() + pauseOffset
    {
      hide Heap, TimeOf, SamplesFor, UnderSample;
      if !queue.IsEmpty() {
        PeekIsWaiting();
      }
      if paused {
        NoWaitIsShort(freq);
      } else if !queue.IsEmpty() {
        var wait := queue.Peek() + pauseOffset - currentTime;
        RoundingsCompose(wait, freq);
        TimeMonotone(NextChunk(left), SamplesFor(wait, freq), freq);
        var limit := currentTime + TimeOf(NextChunk(left), freq) - pauseOffset;
        forall e | e in queue.Contents() && e.time <= limit
          ensures UnderSample(limit - e.time, freq)
        {
          UnderSampleMonotone(limit - e.time, TimeOf(SamplesFor(wait, freq), freq) - wait, freq);
        }
      }
    }

    /** One pass: samples up to the next callback or the end of the buffer, then the
        callbacks. Every pass ends the buffer or runs a callback. */
    method Pass(left: nat, ghost quiet: nat -> nat) returns (samples: seq<nat>)
      requires Valid() && Quiets(quiet) && 0 < left < freq
      modifies this`currentTime, this`pauseOffset, this`fired, this`generated, queue`numEntries, queue.entries
      ensures Valid() && AllLater() && |samples| <= left
      ensures samples == Samples(old(generated), |samples|) && generated == old(generated) + |samples|
      ensures currentTime == old(currentTime) + TimeOf(|samples|, freq)
      ensures pauseOffset == old(pauseOffset) + if paused then TimeOf(|samples|, freq) else 0
      ensures old(fired) <= fired && Turns(old(queue.Contents()), fired, |old(fired)|, script, queue.Contents())
      ensures forall k :: |old(fired)| <= k < |fired| ==> Punctual(fired[k], freq)
      ensures forall k :: |old(fired)| <= k < |fired| ==> Now(fired[k])
      ensures |samples| == left || |fired| > |old(fired)|
      ensures old(AllLater()) ==> |samples| > 0
      ensures paused ==> |samples| == left
      ensures paused ==>
        (|fired| > |old(fired)| <==>
          exists e :: e in old(queue.Contents()) && e.time + old(pauseOffset) == old(currentTime))
    {
      hide Heap, TimeOf, SamplesFor, Punctual, Samples, UnderSample, Turns, OnTime, AllCalm;
      var nsamples := NextChunk(left);
      ChunkIsOnTime(left);
      if !paused && !queue.IsEmpty() && queue.Peek() + pauseOffset > currentTime {
        SamplesPositive(queue.Peek() + pauseOffset - currentTime, freq);
      }
      samples := FillBuffer(nsamples);
      AdvanceTime(nsamples, quiet);
    }

    /** Fills a buffer of bufferLen samples, running callbacks between them. What is waiting changes by
        the turns of the callbacks that ran and by nothing else, and at the end nothing is due. The
        clock advances by the length of the buffer, less at most a microsecond per callback. */
    method MixCallback(bufferLen: nat, ghost quiet: nat -> nat) returns (buffer: seq<nat>)
      requires Valid() && Quiets(quiet) && bufferLen < freq
      modifies this`currentTime, this`pauseOffset, this`fired, this`generated, queue`numEntries, queue.entries
      ensures Valid() && (bufferLen > 0 ==> AllLater())
      ensures buffer == Samples(old(generated), bufferLen) && generated == old(generated) + bufferLen
      ensures old(fired) <= fired && Turns(old(queue.Contents()), fired, |old(fired)|, script, queue.Contents())
      ensures forall k :: |old(fired)| <= k < |fired| ==> Punctual(fired[k], freq)
      ensures AllInPlace(fired, |old(fired)|, old(currentTime), old(generated), freq)
      ensures forall k :: |old(fired)| <= k < |fired| ==>
                fired[k].offset == if paused then fired[k].at - old(currentTime - pauseOffset) else old(pauseOffset)
      ensures var passed := currentTime - old(currentTime);
              TimeOf(bufferLen, freq) - (|fired| - |old(fired)|) <= passed <= TimeOf(bufferLen, freq)
      ensures pauseOffset - old(pauseOffset) == if paused then currentTime - old(currentTime) else 0
      ensures bufferLen > 0 && paused ==>
        (|fired| > |old(fired)| <==>
          exists e :: e in old(queue.Contents()) && e.time + old(pauseOffset) == old(currentTime))
    {
      hide Queue.Valid, TimeOf, SamplesFor, Punctual, AllInPlace, Samples, Driver.AllLater, Turns, Quiets;
      ghost var before, n, start, start' := queue.Contents(), |fired|, currentTime, pauseOffset;
      buffer := [];
      NoSamples(generated);
      NoTurns(before, fired, script);
      NoneInPlace(fired, n, start, generated, freq);
      NoTime(freq);
      var filled := 0;
      while filled < bufferLen
        invariant filled <= bufferLen && Valid() && (filled > 0 ==> |fired| > n || filled == bufferLen)
        invariant filled == bufferLen > 0 ==> AllLater()
        invariant buffer == Samples(old(generated), filled) && generated == old(generated) + filled
        invariant n <= |fired| && old(fired) <= fired && Turns(before, fired, n, script, queue.Contents())
        invariant forall k :: n <= k < |fired| ==> Punctual(fired[k], freq)
        invariant AllInPlace(fired, n, start, old(generated), freq)
        invariant forall k :: n <= k < |fired| ==>
                    fired[k].offset == if paused then fired[k].at - (start - start') else start'
        invariant start <= currentTime <= start + TimeOf(filled, freq)
        invariant start + TimeOf(filled, freq) <= currentTime + (|fired| - n)
        invariant |fired| > n && filled < bufferLen ==> start + TimeOf(filled, freq) < currentTime + (|fired| - n)
        invariant pauseOffset - start' == if paused then currentTime - start else 0
        invariant paused && filled < bufferLen ==>
          fired == old(fired) && currentTime == start && pauseOffset == start' && queue.Contents() == before
        invariant bufferLen > 0 && paused && filled == bufferLen ==>
          (|fired| > n <==> exists e :: e in before && e.time + start' == start)
        decreases bufferLen - filled, if AllLater() then 0 else 1
      {
        ghost var m, soFar := queue.Contents(), fired;
        var samples := Pass(bufferLen - filled, quiet);
        MoreSamples(old(generated), filled, |samples|);
        MoreTime(filled, |samples|, freq);
        TurnsTogether(before, soFar, n, script, m, fired, queue.Contents());
        buffer := buffer + samples;
        filled := filled + |samples|;
        MoreInPlace(soFar, fired, n, start, old(generated), currentTime, filled, freq);
      }
    }
  }

  /** A paused driver does run a callback that is due at this very moment. */
  method PausedDriverRuns(freq: nat) returns (ran: nat)
    requires freq > 1
    ensures ran > 0
  {
    hide Heap, Turns, Punctual, Samples, TimeOf;
    var queue := new Queue();
    var driver := new Driver(queue, freq, _ => []);
    driver.SetCallback(0, 0, 0);
    driver.SetPaused(true);
    assert Entry(0, 0, 0) in queue.Contents();
    var buffer := driver.MixCallback(1, n => n);
    ran := |driver.fired|;
  }

  /** A change of tempo divides the wait of every callback that is not overdue by its factor, as it
      should, only if the driver was never paused: the source takes offsets from the clock that runs
      on while paused, but due times are relative to unpaused time. */
  lemma TempoScalesIff(currentTime: nat, pauseOffset: nat, factor: Factor)
    requires pauseOffset <= currentTime
    ensures (forall due: nat :: due + pauseOffset >= currentTime ==>
               var wait, due' := due + pauseOffset - currentTime, Scaled(currentTime, factor, due, Saturating);
               Divided(wait, factor, due' + pauseOffset - currentTime))
       <==> pauseOffset == 0
  {
    hide Scaled, Divided;
    if pauseOffset > 0 {
      var due: nat := currentTime - pauseOffset;
      var due' := Scaled(currentTime, factor, due, Saturating);
      ScaledIs(currentTime, factor, due, Saturating);
      NothingToDivide(factor, due' + pauseOffset - currentTime);
    } else {
      forall due: nat | due >= currentTime
        ensures Divided(due - currentTime, factor, Scaled(currentTime, factor, due, Saturating) - currentTime)
      {
        ScaledIs(currentTime, factor, due, Saturating);
      }
    }
  }

  lemma NothingToDivide(factor: Factor, q: int)
    ensures Divided(0, factor, q) ==> q == 0
  {
    RealMono(1.0, q as real, factor);
  }

  /** A driver that was paused for 44 samples: a callback that is due at once waits 997 microseconds
      after a change of tempo, even one that leaves the tempo as it is. */
  method TempoAfterPause() returns (wait: int)
    ensures wait == 997
  {
    hide Queue.Contents, Queue.Valid, Queue.Peek, Turns, Punctual, AllInPlace, Samples, TimeOf, Rescaled, Scaled;
    hide Driver.AllLater, Heap;
    var queue := new Queue();
    var driver := new Driver(queue, 44100, _ => []);
    driver.SetPaused(true);
    var buffer := driver.MixCallback(44, n => n);
    NoneRan(multiset{}, driver.fired, driver.script, queue.Contents());
    FortyFourSamples();
    driver.SetPaused(false);
    assert driver.currentTime == driver.pauseOffset == 997;
    driver.SetCallback(0, 0, 0);
    assert queue.Contents() == multiset{Entry(0, 0, 0)};
    driver.AdjustCallbacks(1.0);
    RescaledOne(Entry(0, 0, 0), queue.Contents(), 997, 1.0);
    NotLater(997);
    SizeOfOne(queue);
    wait := queue.Peek() + driver.pauseOffset - driver.currentTime;
  }

  lemma NoneRan(m: multiset<Entry>, fired: seq<Fired>, script: nat -> seq<Action>, m': multiset<Entry>)
    requires Turns(m, fired, |fired|, script, m')
    ensures m' == m
  {
  }

  lemma FortyFourSamples()
    ensures TimeOf(44, 44100) == 997
  {
  }

  lemma RescaledOne(e: Entry, m: multiset<Entry>, time: nat, factor: Factor)
    requires Rescaled(multiset{e}, m, time, factor)
    ensures m == multiset{e.(time := Scaled(time, factor, e.time, Saturating))}
  {
    hide Scaled;
    var s, t :| Pairwise(s, t, time, factor) && multiset(s) == multiset{e} && multiset(t) == m;
    assert |s| == |multiset(s)| == 1;
    assert s[0] in multiset(s);
    assert t == [t[0]];
    MovedIff(s[0], t[0], time, factor);
  }

  lemma NotLater(time: nat)
    ensures Scaled(time, 1.0, 0, Saturating) == time
  {
  }

  lemma SizeOfOne(queue: Queue)
    requires queue.Valid() && queue.Contents() != multiset{}
    ensures !queue.IsEmpty()
  {
  }

  lemma RescaledBy(s: seq<Entry>, t: seq<Entry>, time: nat, factor: Factor)
    requires Pairwise(s, t, time, factor)
    ensures Rescaled(multiset(s), multiset(t), time, factor)
  {
  }

  lemma NoTurns(m: multiset<Entry>, fired: seq<Fired>, script: nat -> seq<Action>)
    ensures Turns(m, fired, |fired|, script, m)
  {
  }

  lemma TurnOnTime(m: multiset<Entry>, f: Fired, acts: seq<Action>, m': multiset<Entry>, limit: int, freq: nat)
    requires Turn(m, f, acts, m') && limit == f.at - f.offset && OnTime(m, limit, freq)
    ensures Punctual(f, freq) && OnTime(m', limit, freq)
    ensures f.entry in m && f.entry.time <= limit
  {
    hide ActedAll, UnderSample;
    ActsOnTime(m - multiset{f.entry}, acts, f.at, f.offset, m', freq);
  }

  /** A callback that makes nothing due at once leaves one less due. */
  lemma TurnDue(m: multiset<Entry>, f: Fired, acts: seq<Action>, m': multiset<Entry>, limit: int,
                due: multiset<Entry>, later: multiset<Entry>, due': multiset<Entry>, later': multiset<Entry>)
    requires Turn(m, f, acts, m') && limit == f.at - f.offset
    requires Split(m, limit, due, later) && Split(m', limit, due', later')
    ensures |due| > 0 && (AllCalm(acts) ==> |due'| < |due|)
  {
    hide ActedAll, AllCalm;
    assert f.entry in due;
    var left := m - multiset{f.entry};
    assert left == (due - multiset{f.entry}) + later;
    if AllCalm(acts) {
      CalmActs(left, acts, f.at, f.offset, m', due - multiset{f.entry}, later, due', later');
    }
  }

  lemma NoneInPlace(fired: seq<Fired>, n: nat, start: nat, first: nat, freq: nat)
    requires freq > 0 && n == |fired|
    ensures AllInPlace(fired, n, start, first, freq)
  {
  }

  lemma NoTime(freq: nat)
    requires freq > 0
    ensures TimeOf(0, freq) == 0
  {
  }

  /** Times of two chunks, each rounded down, fall short of the time of both by less than two. */
  lemma MoreTime(m: nat, n: nat, freq: nat)
    requires freq > 0
    ensures TimeOf(m, freq) + TimeOf(n, freq) <= TimeOf(m + n, freq) <= TimeOf(m, freq) + TimeOf(n, freq) + 1
  {
    var x, y := m * OPL_SECOND, n * OPL_SECOND;
    assert (m + n) * OPL_SECOND == x + y;
    QuotientOfSum(x, y, freq);
  }

  lemma QuotientOfSum(x: nat, y: nat, d: nat)
    requires d > 0
    ensures x / d + y / d <= (x + y) / d <= x / d + y / d + 1
  {
    var p, q, r, s := x / d, y / d, x % d, y % d;
    SumOfQuotients(x, y, d, p, q, r, s);
  }

  lemma SumOfQuotients(x: nat, y: nat, d: nat, p: nat, q: nat, r: nat, s: nat)
    requires d > 0 && x == p * d + r && y == q * d + s && r < d && s < d
    ensures p + q <= (x + y) / d <= p + q + 1
  {
    var k := p + q;
    assert k * d == p * d + q * d;
    if r + s < d {
      DivModUnique(x + y, d, k, r + s);
    } else {
      assert (k + 1) * d == k * d + d;
      DivModUnique(x + y, d, k + 1, r + s - d);
    }
  }

  /** The emulator's samples, numbered in the order it generates them. */
  function Samples(first: nat, n: nat): (s: seq<nat>)
    ensures |s| == n
  {
    seq(n, k requires 0 <= k < n => first + k)
  }

  lemma NoSamples(first: nat)
    ensures Samples(first, 0) == []
  {
  }

  lemma MoreSamples(first: nat, m: nat, n: nat)
    ensures Samples(first, m) + Samples(first + m, n) == Samples(first, m + n)
  {
  }

  lemma UnderSampleMonotone(a: nat, b: nat, freq: nat)
    requires a <= b && UnderSample(b, freq)
    ensures UnderSample(a, freq)
  {
    assert a * freq <= b * freq;
  }
}
