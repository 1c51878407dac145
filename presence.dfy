/** The background presence tracker of `app.py`: the body of the
    `rfid_listener` loop, which debounces the reader into one shared
    "current card" value. Times are integer milliseconds. */
module Presence {
  import opened Wrappers
  import RfidReader

  /** How long an absent card is still treated as present (3 seconds). */
  const DebounceMs: int := 3000

  /** One pass of the loop: what `read_rfid()` returned and the time of the pass. */
  datatype Tick = Tick(reading: Option<string>, now: int)

  /** `current_card["uid"]` and `last_seen`. */
  datatype State = State(uid: Option<string>, lastSeen: int)

  /** The state at process start. */
  const Initial: State := State(None, 0)

  /** Python truthiness of a string-or-`None`: `None` and `""` count as no card. */
  predicate Present(reading: Option<string>)
  {
    reading.Some? && reading.value != ""
  }

  /** One loop iteration: a card refreshes both the uid and `last_seen`;
      no card clears the uid only once more than the debounce window has
      passed since `last_seen`, and never touches `last_seen`. */
  function Step(s: State, t: Tick): State
  {
    if Present(t.reading) then State(t.reading, t.now)
    else if t.now - s.lastSeen > DebounceMs then State(None, s.lastSeen)
    else s
  }

  /** The state after a run of ticks, applied in order. */
  function Run(s: State, ticks: seq<Tick>): State
    decreases |ticks|
  {
    if ticks == [] then s else Step(Run(s, ticks[..|ticks| - 1]), ticks[|ticks| - 1])
  }

  /** A card reading sets the uid and `last_seen`, whatever the state before. */
  lemma StepPresent(s: State, t: Tick)
    requires Present(t.reading)
    ensures Step(s, t).uid == t.reading && Step(s, t).uid.value != ""
    ensures Step(s, t).lastSeen == t.now
  {
  }

  /** No card: `last_seen` stays, and the uid is cleared exactly when the
      window is strictly exceeded (at exactly 3 seconds it is kept). */
  lemma StepAbsent(s: State, t: Tick)
    requires !Present(t.reading)
    ensures Step(s, t).lastSeen == s.lastSeen
    ensures Step(s, t).uid == None <==> (t.now - s.lastSeen > DebounceMs || s.uid == None)
    ensures Step(s, t).uid != None ==> Step(s, t).uid == s.uid
  {
  }

  /** The index of the latest tick that saw a card, if any. */
  function LastPresent(ticks: seq<Tick>): (r: Option<nat>)
    ensures r.Some? ==> r.value < |ticks| && Present(ticks[r.value].reading)
    ensures r.Some? ==> forall j :: r.value < j < |ticks| ==> !Present(ticks[j].reading)
    ensures r.None? ==> forall j :: 0 <= j < |ticks| ==> !Present(ticks[j].reading)
    decreases |ticks|
  {
    if ticks == [] then None
    else if Present(ticks[|ticks| - 1].reading) then Some(|ticks| - 1)
    else LastPresent(ticks[..|ticks| - 1])
  }

  /** Some tick in `ticks` came more than the debounce window after `since`. */
  predicate Expired(ticks: seq<Tick>, since: int)
  {
    exists j :: 0 <= j < |ticks| && ticks[j].now - since > DebounceMs
  }

  lemma ExpiredAppend(ticks: seq<Tick>, t: Tick, since: int)
    ensures Expired(ticks + [t], since) <==> Expired(ticks, since) || t.now - since > DebounceMs
  {
    var w := ticks + [t];
    if Expired(ticks, since) {
      var j :| 0 <= j < |ticks| && ticks[j].now - since > DebounceMs;
      assert w[j] == ticks[j];
    }
    if t.now - since > DebounceMs {
      assert w[|ticks|] == t;
    }
    if Expired(w, since) {
      var j :| 0 <= j < |w| && w[j].now - since > DebounceMs;
      if j < |ticks| { assert ticks[j] == w[j]; }
    }
  }

  /** An independent description of where a run ends: the latest card
      seen (or the starting state when there was none), cleared when any
      later tick found the window exceeded. */
  function Expected(s: State, ticks: seq<Tick>): State
  {
    match LastPresent(ticks)
    case Some(k) =>
      State(if Expired(ticks[k + 1..], ticks[k].now) then None else ticks[k].reading, ticks[k].now)
    case None =>
      State(if Expired(ticks, s.lastSeen) then None else s.uid, s.lastSeen)
  }

  /** Every run of ticks ends where `Expected` says. */
  lemma {:induction false} RunIsExpected(s: State, ticks: seq<Tick>)
    ensures Run(s, ticks) == Expected(s, ticks)
    decreases |ticks|
  {
    if ticks != [] {
      var n := |ticks| - 1;
      var p, t := ticks[..n], ticks[n];
      assert ticks == p + [t];
      RunIsExpected(s, p);
      if !Present(t.reading) {
        assert LastPresent(ticks) == LastPresent(p);
        match LastPresent(p)
        case Some(k) =>
          assert ticks[k] == p[k];
          assert ticks[k + 1..] == p[k + 1..] + [t];
          ExpiredAppend(p[k + 1..], t, p[k].now);
        case None =>
          ExpiredAppend(p, t, s.lastSeen);
      } else {
        assert ticks[n + 1..] == [];
      }
    }
  }

  /** The listener's invariant from process start: a non-`None` uid is
      the most recent card reading, never the empty string, and
      `last_seen` is the time of that reading. */
  lemma {:induction false} UidIsLatestReading(ticks: seq<Tick>)
    ensures Run(Initial, ticks).uid.Some? ==>
              LastPresent(ticks).Some?
              && Run(Initial, ticks).uid == ticks[LastPresent(ticks).value].reading
              && Run(Initial, ticks).uid.value != ""
              && Run(Initial, ticks).lastSeen == ticks[LastPresent(ticks).value].now
  {
    RunIsExpected(Initial, ticks);
  }

  /** A card read at time 0 and then absent at 2.9 s, 3.0 s and 3.1 s is
      still present at 2.9 s and at exactly 3 s, and gone at 3.1 s. */
  lemma DebounceScenario()
    ensures Run(Initial, [Tick(Some("04A1"), 0)]).uid == Some("04A1")
    ensures Run(Initial, [Tick(Some("04A1"), 0), Tick(None, 2900)]).uid == Some("04A1")
    ensures Run(Initial, [Tick(Some("04A1"), 0), Tick(None, 2900), Tick(None, 3000)]).uid == Some("04A1")
    ensures Run(Initial, [Tick(Some("04A1"), 0), Tick(None, 2900), Tick(None, 3000), Tick(None, 3100)]).uid == None
  {
    var t0, t1, t2, t3 := Tick(Some("04A1"), 0), Tick(None, 2900), Tick(None, 3000), Tick(None, 3100);
    assert [t0, t1, t2, t3][..3] == [t0, t1, t2];
    assert [t0, t1, t2][..2] == [t0, t1];
    assert [t0, t1][..1] == [t0];
    assert [t0][..0] == [];
  }

  /** An empty uid list from the driver yields `""`, which the listener
      treats as no card at all. */
  lemma EmptyUidReadsAsAbsent(tagType: int, s: State, now: int)
    ensures RfidReader.ReadRfid(RfidReader.Returned((RfidReader.OK, tagType)),
                                RfidReader.Returned((RfidReader.OK, []))) == Some("")
    ensures !Present(Some(""))
    ensures Step(s, Tick(Some(""), now)).lastSeen == s.lastSeen
  {
  }

  /** One pass of `rfid_listener` as the driver sees it. */
  datatype Pass = Pass(request: RfidReader.Call<(int, int)>,
                       anticoll: RfidReader.Call<(int, seq<int>)>,
                       now: int)

  /** The ticks a sequence of passes produces. */
  function Readings(passes: seq<Pass>): (ticks: seq<Tick>)
    ensures |ticks| == |passes|
    ensures forall i :: 0 <= i < |passes| ==>
              ticks[i] == Tick(RfidReader.ReadRfid(passes[i].request, passes[i].anticoll), passes[i].now)
    decreases |passes|
  {
    if passes == [] then []
    else Readings(passes[..|passes| - 1])
         + [Tick(RfidReader.ReadRfid(passes[|passes| - 1].request, passes[|passes| - 1].anticoll), passes[|passes| - 1].now)]
  }

  /** The shared `current_card` / `last_seen` pair, updated in place by the listener. */
  class PresenceTracker {
    var uid: Option<string>
    var lastSeen: int
    /** Every tick applied so far. */
    ghost var history: seq<Tick>

    ghost predicate Valid()
      reads this
    {
      State(uid, lastSeen) == Run(Initial, history)
    }

    constructor ()
      ensures Valid() && history == []
      ensures uid == None && lastSeen == 0
    {
      uid := None;
      lastSeen := 0;
      history := [];
    }

    /** The loop body after `read_rfid()` has returned. */
    method OnTick(t: Tick)
      requires Valid()
      modifies this
      ensures Valid() && history == old(history) + [t]
      ensures State(uid, lastSeen) == Step(old(State(uid, lastSeen)), t)
      ensures uid.Some? ==> LastPresent(history).Some?
                            && uid == history[LastPresent(history).value].reading
    {
      if Present(t.reading) {
        uid := t.reading;
        lastSeen := t.now;
      } else if t.now - lastSeen > DebounceMs {
        uid := None;
      }
      history := history + [t];
      assert history[..|history| - 1] == old(history);
      UidIsLatestReading(history);
    }

    /** One whole pass: read the card, then update the shared state. */
    method Poll(p: Pass)
      requires Valid()
      modifies this
      ensures Valid()
      ensures history == old(history) + [Tick(RfidReader.ReadRfid(p.request, p.anticoll), p.now)]
    {
      var reading := RfidReader.ReadRfid(p.request, p.anticoll);
      OnTick(Tick(reading, p.now));
    }

    /** The `while True` loop, run over a finite prefix of its passes. */
    method Listen(passes: seq<Pass>)
      requires Valid()
      modifies this
      ensures Valid() && history == old(history) + Readings(passes)
      ensures State(uid, lastSeen) == Run(Initial, old(history) + Readings(passes))
    {
      var i := 0;
      while i < |passes|
        invariant 0 <= i <= |passes|
        invariant Valid()
        invariant history == old(history) + Readings(passes[..i])
      {
        Poll(passes[i]);
        assert passes[..i + 1][..i] == passes[..i];
        i := i + 1;
      }
      assert passes[..|passes|] == passes;
    }
  }
}
