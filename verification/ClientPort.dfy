/** The session counts of `KClientPort`, one load or compare-and-swap at a time.

    Any number of creators and finalisers interleave; a compare-and-swap may fail spuriously.  The
    ghost parts of the state record what happened: the sessions that count, the highest count so
    far, and how often waiters have been notified. */
module ClientPort {

  type Thread = nat

  /** Where a creator is. */
  datatype Place =
    | Idle
    | Counting(cur: int)                // has loaded the number of sessions
    | Counted(count: int)               // has incremented it to `count`
    | Peaking(count: int, seen: int)    // has loaded the peak

  datatype State = State(sessions: int, peak: int, places: map<Thread, Place>, live: nat, highest: int, notified: nat)

  datatype Action =
    | Load(t: Thread)
    | Count(t: Thread, spurious: bool)
    | LoadPeak(t: Thread)
    | Peak(t: Thread, spurious: bool)
    | Finalize

  function At(s: State, t: Thread): Place { if t in s.places then s.places[t] else Idle }

  function Put(s: State, t: Thread, p: Place): State { s.(places := s.places[t := p]) }

  predicate IsSignaled(s: State, max: int) { s.sessions < max }

  predicate Enabled(s: State, a: Action) {
    match a
    case Load(t) => At(s, t).Idle?
    case Count(t, _) => At(s, t).Counting?
    case LoadPeak(t) => At(s, t).Counted?
    case Peak(t, _) => At(s, t).Peaking?
    case Finalize => s.live > 0
  }

  function Max(a: int, b: int): int { if a < b then b else a }

  function Apply(s: State, max: int, a: Action): State
    requires Enabled(s, a)
  {
    match a
    case Load(t) => Put(s, t, Counting(s.sessions))
    case Count(t, spurious) =>
      var cur := At(s, t).cur;
      if cur >= max then Put(s, t, Idle)
      else if s.sessions == cur && !spurious then
        Put(s.(sessions := cur + 1, live := s.live + 1, highest := Max(s.highest, cur + 1)), t, Counted(cur + 1))
      else Put(s, t, Counting(s.sessions))
    case LoadPeak(t) => Put(s, t, Peaking(At(s, t).count, s.peak))
    case Peak(t, spurious) =>
      var p := At(s, t);
      if p.seen >= p.count then Put(s, t, Idle)
      else if s.peak == p.seen && !spurious then Put(s.(peak := p.count), t, Idle)
      else Put(s, t, Peaking(p.count, s.peak))
    case Finalize =>
      s.(sessions := s.sessions - 1, live := s.live - 1, notified := s.notified + if s.sessions == max then 1 else 0)
  }

  // ----- What every step keeps -----

  /** The count a creator has still to take into the peak. */
  function Pending(p: Place): int {
    match p
    case Counted(n) => n
    case Peaking(n, _) => n
    case _ => 0
  }

  ghost predicate PlaceOk(s: State, t: Thread)
    requires t in s.places
  {
    var p := s.places[t];
    Pending(p) <= s.highest && (p.Peaking? ==> p.seen <= s.peak) && (p.Counting? ==> 0 <= p.cur)
  }

  /** Some creator has still to take the highest count into the peak. */
  ghost predicate SomePending(s: State) { exists t :: t in s.places && Pending(s.places[t]) == s.highest }

  ghost predicate Inv(s: State, max: int) {
    && 0 <= s.sessions <= max && s.sessions == s.live && s.sessions <= s.highest && 0 <= s.peak <= s.highest
    && (forall t {:trigger PlaceOk(s, t)} :: t in s.places ==> PlaceOk(s, t))
    && (s.peak == s.highest || SomePending(s))
  }

  lemma StillPending(s: State, s': State, t: Thread, p: Place)
    requires s'.places == s.places[t := p] && s'.highest == s.highest && SomePending(s)
    requires Pending(At(s, t)) == s.highest && t in s.places ==> Pending(p) == s.highest
    ensures SomePending(s')
  {
    var u :| u in s.places && Pending(s.places[u]) == s.highest;
    assert u in s'.places && Pending(s'.places[u]) == s'.highest;
  }

  /** The bounds hold after every step, and a notification is sent exactly if the port was full and
      no longer is. */
  lemma StepKeepsInv(s: State, max: int, a: Action)
    requires Inv(s, max) && Enabled(s, a)
    ensures var s' := Apply(s, max, a);
            && Inv(s', max)
            && s'.notified == s.notified + (if !IsSignaled(s, max) && IsSignaled(s', max) then 1 else 0)
            && s'.highest == Max(s.highest, s'.sessions)
  {
    var s' := Apply(s, max, a);
    match a {
      case Finalize =>
        forall u | u in s'.places ensures PlaceOk(s', u) { assert PlaceOk(s, u); }
        if s.peak != s.highest {
          var u :| u in s.places && Pending(s.places[u]) == s.highest;
          assert u in s'.places && Pending(s'.places[u]) == s'.highest;
        }
      case _ => CreatorKeepsInv(s, max, a, a.t);
    }
  }

  lemma CreatorKeepsInv(s: State, max: int, a: Action, t: Thread)
    requires Inv(s, max) && Enabled(s, a) && !a.Finalize? && a.t == t
    ensures var s' := Apply(s, max, a); Inv(s', max) && s'.notified == s.notified && s'.highest == Max(s.highest, s'.sessions)
    ensures !IsSignaled(s, max) ==> !IsSignaled(Apply(s, max, a), max)
  {
    var s' := Apply(s, max, a);
    if t in s.places { assert PlaceOk(s, t); }
    forall u | u in s'.places ensures PlaceOk(s', u) { if u in s.places { assert PlaceOk(s, u); } }
    if s'.peak != s'.highest {
      if s'.highest != s.highest { assert Pending(s'.places[t]) == s'.highest; }
      else { StillPending(s, s', t, s'.places[t]); }
    }
  }

  /** A creator is refused exactly if the count it loaded has reached the maximum; it is counted, once,
      exactly if the count it loaded is below that and still current, and otherwise it looks again. */
  lemma CountEnds(s: State, max: int, t: Thread, spurious: bool)
    requires Inv(s, max) && At(s, t).Counting?
    ensures var s', cur := Apply(s, max, Count(t, spurious)), At(s, t).cur;
            && (At(s', t).Idle? <==> cur >= max) && (At(s', t).Idle? ==> s'.sessions == s.sessions && s'.live == s.live)
            && (At(s', t).Counted? <==> cur < max && s.sessions == cur && !spurious)
            && (At(s', t).Counted? ==> s'.sessions == s.sessions + 1 == At(s', t).count && s'.live == s.live + 1)
            && (At(s', t).Counting? ==> At(s', t).cur == s.sessions == s'.sessions && s'.live == s.live)
            && s'.peak == s.peak
  {
  }

  /** A counted creator leaves the peak at its count or above, and nowhere else. */
  lemma PeakEnds(s: State, max: int, t: Thread, spurious: bool)
    requires Inv(s, max) && At(s, t).Peaking?
    ensures var s', n := Apply(s, max, Peak(t, spurious)), At(s, t).count;
            && (At(s', t).Idle? ==> s'.peak >= n && (s'.peak == s.peak || s'.peak == n))
            && (!At(s', t).Idle? ==> s'.peak == s.peak && At(s', t) == Peaking(n, s.peak))
            && s'.sessions == s.sessions
  {
    assert t in s.places && PlaceOk(s, t);
  }

  // ----- Runs -----

  function Exec(s: State, max: int, run: seq<Action>): State
    decreases |run|
  {
    if run == [] then s else Exec(if Enabled(s, run[0]) then Apply(s, max, run[0]) else s, max, run[1..])
  }

  /** How often the port went from full to not full. */
  function Openings(s: State, max: int, run: seq<Action>): nat
    decreases |run|
  {
    if run == [] then 0
    else
      var s1 := if Enabled(s, run[0]) then Apply(s, max, run[0]) else s;
      (if !IsSignaled(s, max) && IsSignaled(s1, max) then 1 else 0) + Openings(s1, max, run[1..])
  }

  /** The largest number of sessions at any time of the run. */
  function Largest(s: State, max: int, run: seq<Action>): int
    decreases |run|
  {
    if run == [] then s.sessions
    else Max(s.sessions, Largest(if Enabled(s, run[0]) then Apply(s, max, run[0]) else s, max, run[1..]))
  }

  predicate NobodyBetween(s: State) { forall t :: t in s.places ==> !s.places[t].Counted? && !s.places[t].Peaking? }

  lemma {:induction false} RunCounts(s: State, max: int, run: seq<Action>)
    requires Inv(s, max)
    ensures var s' := Exec(s, max, run);
            && Inv(s', max) && s'.notified == s.notified + Openings(s, max, run)
            && s'.highest == Max(s.highest, Largest(s, max, run))
    decreases |run|
  {
    if run != [] {
      if Enabled(s, run[0]) { StepKeepsInv(s, max, run[0]); }
      RunCounts(if Enabled(s, run[0]) then Apply(s, max, run[0]) else s, max, run[1..]);
    }
  }

  function Start(): State { State(0, 0, map[], 0, 0, 0) }

  /** After every interleaving from the start: the count is within its bounds, there was one
      notification for each time the port stopped being full, and if no creator is between its two
      loops the peak is the largest count there ever was. */
  lemma EveryRunCounts(max: int, run: seq<Action>)
    requires 0 <= max
    ensures var s := Exec(Start(), max, run);
            && 0 <= s.sessions <= max && s.notified == Openings(Start(), max, run)
            && s.peak <= Largest(Start(), max, run) && (NobodyBetween(s) ==> s.peak == Largest(Start(), max, run))
  {
    RunCounts(Start(), max, run);
    StartLargest(Start(), max, run);
    var s := Exec(Start(), max, run);
    assert NobodyBetween(s) && SomePending(s) ==> s.highest == 0;
  }

  lemma StartLargest(s: State, max: int, run: seq<Action>)
    ensures s.sessions <= Largest(s, max, run)
  {
  }
}
