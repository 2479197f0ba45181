/** Telling a lone Esc from an Alt chord.  A standalone Esc is held back for a short while; a
    printable rune that follows in time becomes Alt+rune, anything else flushes the Esc first.
    Each held Esc starts a timer stamped with a generation number. */
module EscFilter {
  import opened Common

  datatype Key =
    | Esc(alt: bool)
    | Runes(runes: string, alt: bool)
    | Special(code: nat, alt: bool)

  const ESC_DISAMBIGUATE_TIMEOUT := 50  // milliseconds

  predicate IsRune(k: Key) { k.Runes? && |k.runes| == 1 }

  /** What a key stands for on the wire: Alt+rune is Esc then the rune, Alt+Esc is two Esc. */
  function Wire(k: Key): seq<Key> {
    if IsRune(k) && k.alt then [Esc(false), Runes(k.runes, false)]
    else if k == Esc(true) then [Esc(false), Esc(false)]
    else [k]
  }

  function Expand(ks: seq<Key>): seq<Key> {
    if ks == [] then [] else Expand(ks[..|ks| - 1]) + Wire(ks[|ks| - 1])
  }

  lemma {:induction false} ExpandSnoc(a: seq<Key>, k: Key)
    ensures Expand(a + [k]) == Expand(a) + Wire(k)
  {
    assert (a + [k])[..|a + [k]| - 1] == a;
  }

  lemma {:induction false} ExpandTwo(a: seq<Key>, j: Key, k: Key)
    ensures Expand(a + [j, k]) == Expand(a) + Wire(j) + Wire(k)
  {
    ExpandSnoc(a, j);
    ExpandSnoc(a + [j], k);
    assert a + [j, k] == a + [j] + [k];
  }

  /** What reaches the dispatcher when `key` arrives with an Esc held back or not. */
  function Passed(pending: bool, inTime: bool, key: Key): seq<Key> {
    if pending then
      if inTime && IsRune(key) && !key.alt then [Runes(key.runes, true)] else [Esc(false), key]
    else if key == Esc(true) then [Esc(false), Esc(false)]
    else if key == Esc(false) then []
    else [key]
  }

  function Held(pending: bool): seq<Key> { if pending then [Esc(false)] else [] }

  /** Dispatched keys and the held Esc spell the received keys. */
  ghost predicate Conserved(dispatched: seq<Key>, pending: bool, received: seq<Key>) {
    Expand(dispatched) + Held(pending) == Expand(received)
  }

  lemma {:induction false} NothingHeld(dispatched: seq<Key>, received: seq<Key>)
    ensures Conserved(dispatched, false, received) <==> Expand(dispatched) == Expand(received)
  {
    assert Expand(dispatched) + [] == Expand(dispatched);
  }

  lemma {:induction false} HoldConserves(dispatched: seq<Key>, received: seq<Key>)
    requires Conserved(dispatched, false, received)
    ensures Conserved(dispatched, true, received + [Esc(false)])
  {
    NothingHeld(dispatched, received);
    ExpandSnoc(received, Esc(false));
  }

  lemma {:induction false} TwoEscs(dispatched: seq<Key>)
    ensures Expand(dispatched + [Esc(false), Esc(false)]) == Expand(dispatched) + Wire(Esc(true))
  {
    ExpandTwo(dispatched, Esc(false), Esc(false));
    Assoc(Expand(dispatched), [Esc(false)], [Esc(false)]);
  }

  lemma {:induction false} TwoEscsConserve(dispatched: seq<Key>, received: seq<Key>)
    requires Conserved(dispatched, false, received)
    ensures Conserved(dispatched + [Esc(false), Esc(false)], false, received + [Esc(true)])
  {
    NothingHeld(dispatched, received);
    TwoEscs(dispatched);
    ExpandSnoc(received, Esc(true));
    NothingHeld(dispatched + [Esc(false), Esc(false)], received + [Esc(true)]);
  }

  lemma {:induction false} PlainConserves(dispatched: seq<Key>, received: seq<Key>, key: Key)
    requires Conserved(dispatched, false, received)
    ensures Conserved(dispatched + [key], false, received + [key])
  {
    NothingHeld(dispatched, received);
    ExpandSnoc(received, key);
    ExpandSnoc(dispatched, key);
    NothingHeld(dispatched + [key], received + [key]);
  }

  lemma {:induction false} UnheldConserves(dispatched: seq<Key>, received: seq<Key>, key: Key)
    requires Conserved(dispatched, false, received)
    ensures Conserved(dispatched + Passed(false, false, key), key == Esc(false), received + [key])
  {
    if key == Esc(false) {
      HoldConserves(dispatched, received);
      assert dispatched + [] == dispatched;
    } else if key == Esc(true) {
      TwoEscsConserve(dispatched, received);
    } else {
      PlainConserves(dispatched, received, key);
    }
  }

  lemma {:induction false} ChordConserves(dispatched: seq<Key>, received: seq<Key>, r: string)
    requires Conserved(dispatched, true, received) && |r| == 1
    ensures Conserved(dispatched + [Runes(r, true)], false, received + [Runes(r, false)])
  {
    ExpandSnoc(dispatched, Runes(r, true));
    ExpandSnoc(received, Runes(r, false));
    var d := Expand(dispatched);
    assert d + [Esc(false), Runes(r, false)] == d + [Esc(false)] + [Runes(r, false)];
  }

  lemma {:induction false} FlushFirstConserves(dispatched: seq<Key>, received: seq<Key>, key: Key)
    requires Conserved(dispatched, true, received)
    ensures Conserved(dispatched + [Esc(false), key], false, received + [key])
  {
    ExpandTwo(dispatched, Esc(false), key);
    ExpandSnoc(received, key);
  }

  /** One key neither loses nor invents anything on the wire, in time or not. */
  lemma {:induction false} KeyConserves(dispatched: seq<Key>, pending: bool, received: seq<Key>, inTime: bool, key: Key)
    requires Conserved(dispatched, pending, received)
    ensures Conserved(dispatched + Passed(pending, inTime, key), !pending && key == Esc(false), received + [key])
  {
    var out := Passed(pending, inTime, key);
    if pending {
      if inTime && IsRune(key) && !key.alt {
        ChordConserves(dispatched, received, key.runes);
        assert out == [Runes(key.runes, true)] && key == Runes(key.runes, false);
      } else {
        FlushFirstConserves(dispatched, received, key);
        assert out == [Esc(false), key];
      }
    } else {
      UnheldConserves(dispatched, received, key);
      assert out == Passed(false, false, key);
    }
  }

  lemma {:induction false} FlushConserves(dispatched: seq<Key>, received: seq<Key>)
    requires Conserved(dispatched, true, received)
    ensures Conserved(dispatched + [Esc(false)], false, received)
  {
    ExpandSnoc(dispatched, Esc(false));
  }

  /** The current generation has exactly one timer under way while an Esc is held back and none
      otherwise, and no timer is from the future. */
  ghost predicate TimersMatch(timers: multiset<nat>, pending: bool, gen: nat) {
    && timers[gen] == (if pending then 1 else 0)
    && forall g | g in timers :: g <= gen
  }

  /** Starting and abandoning a held Esc, and delivering a timer, keep the discipline. */
  lemma {:induction false} TimerSteps(timers: multiset<nat>, gen: nat)
    ensures TimersMatch(timers, false, gen) ==> TimersMatch(timers + multiset{gen}, true, gen)
    ensures TimersMatch(timers, true, gen) ==> TimersMatch(timers, false, gen + 1)
    ensures TimersMatch(timers, true, gen) ==> TimersMatch(timers - multiset{gen}, false, gen + 1)
    ensures forall p, g | g in timers && g != gen ::
              TimersMatch(timers, p, gen) ==> TimersMatch(timers - multiset{g}, p, gen)
    ensures forall g | g in timers && TimersMatch(timers, false, gen) :: g != gen
  {
  }

  // ---------------------------------------------------------------------------
  // The machine
  // ---------------------------------------------------------------------------

  /** `timers` belongs to the run time: the generations of the timers not yet delivered. */
  datatype State = State(pending: bool, at: int, gen: nat, timers: multiset<nat>, dispatched: seq<Key>)

  datatype Event =
    | Press(key: Key, now: int)
    | Fire(gen: nat)  // delivered only if such a timer is outstanding

  const START := State(false, 0, 0, multiset{}, [])

  function OnKey(s: State, key: Key, now: int): State {
    var hold := !s.pending && key == Esc(false);
    State(hold,
          if hold then now else s.at,
          if s.pending then s.gen + 1 else s.gen,
          if hold then s.timers + multiset{s.gen} else s.timers,
          s.dispatched + Passed(s.pending, now - s.at < ESC_DISAMBIGUATE_TIMEOUT, key))
  }

  function OnTick(s: State, gen: nat): State {
    var t := s.(timers := s.timers - multiset{gen});
    if s.pending && gen == s.gen then
      t.(pending := false, gen := s.gen + 1, dispatched := s.dispatched + [Esc(false)])
    else t
  }

  function Exec(es: seq<Event>): State {
    if es == [] then START
    else
      var s, e := Exec(es[..|es| - 1]), es[|es| - 1];
      match e
      case Press(key, now) => OnKey(s, key, now)
      case Fire(gen) => if gen in s.timers then OnTick(s, gen) else s
  }

  function Pressed(es: seq<Event>): seq<Key> {
    if es == [] then []
    else
      var before, e := Pressed(es[..|es| - 1]), es[|es| - 1];
      if e.Press? then before + [e.key] else before
  }

  lemma {:induction false} PressConserves(s: State, key: Key, now: int, received: seq<Key>)
    requires Conserved(s.dispatched, s.pending, received) && TimersMatch(s.timers, s.pending, s.gen)
    ensures var t := OnKey(s, key, now);
            Conserved(t.dispatched, t.pending, received + [key]) && TimersMatch(t.timers, t.pending, t.gen)
  {
    TimerSteps(s.timers, s.gen);
    KeyConserves(s.dispatched, s.pending, received, now - s.at < ESC_DISAMBIGUATE_TIMEOUT, key);
  }

  lemma {:induction false} FireConserves(s: State, gen: nat, received: seq<Key>)
    requires Conserved(s.dispatched, s.pending, received) && TimersMatch(s.timers, s.pending, s.gen)
    requires gen in s.timers
    ensures var t := OnTick(s, gen);
            Conserved(t.dispatched, t.pending, received) && TimersMatch(t.timers, t.pending, t.gen)
  {
    TimerSteps(s.timers, s.gen);
    if s.pending { FlushConserves(s.dispatched, received); }
  }

  /** Over every sequence of keys and timer deliveries, in any order and at any time, the
      dispatched keys and the held Esc spell exactly the received keys, and the timers match. */
  lemma {:induction false} EveryRunConserves(es: seq<Event>)
    ensures var s := Exec(es);
            Conserved(s.dispatched, s.pending, Pressed(es)) && TimersMatch(s.timers, s.pending, s.gen)
    decreases |es|
  {
    if es != [] {
      var es', e := es[..|es| - 1], es[|es| - 1];
      var s := Exec(es');
      EveryRunConserves(es');
      match e
      case Press(key, now) => PressConserves(s, key, now, Pressed(es'));
      case Fire(gen) => if gen in s.timers { FireConserves(s, gen, Pressed(es')); }
    }
  }

  /** No stale timer flushes a later Esc: on every run, a delivered timer acts exactly if it
      carries the current generation, and then an Esc is held and no other timer can flush it. */
  lemma {:induction false} OnlyOwnTimerFlushes(es: seq<Event>, gen: nat)
    requires gen in Exec(es).timers
    ensures var s, t := Exec(es), Exec(es + [Fire(gen)]);
            && (t.dispatched != s.dispatched <==> gen == s.gen)
            && (gen == s.gen ==> s.pending && !t.pending && t.dispatched == s.dispatched + [Esc(false)]
                                 && gen !in t.timers)
            && (gen != s.gen ==> t.pending == s.pending && t.gen == s.gen)
  {
    EveryRunConserves(es);
    assert (es + [Fire(gen)])[..|es|] == es;
  }

  /** When no timer of the current generation is under way, nothing is held back and everything has
      arrived; older timers do not matter. */
  lemma {:induction false} QuietMeansComplete(es: seq<Event>)
    requires Exec(es).timers[Exec(es).gen] == 0
    ensures !Exec(es).pending && Expand(Exec(es).dispatched) == Expand(Pressed(es))
  {
    EveryRunConserves(es);
  }

  // ---------------------------------------------------------------------------
  // What is dispatched when, from the events alone
  // ---------------------------------------------------------------------------

  /** How many Escs have been held back so far. */
  function Holds(es: seq<Event>): nat {
    if es == [] then 0
    else
      var before, e := es[..|es| - 1], es[|es| - 1];
      Holds(before) + if e.Press? && e.key == Esc(false) && HeldSince(before).None? then 1 else 0
  }

  /** When the Esc was pressed that is held back now: no key and no timer of its own has come since. */
  function HeldSince(es: seq<Event>): Option<int> {
    if es == [] then None
    else
      var before, e := es[..|es| - 1], es[|es| - 1];
      match e
      case Press(key, now) => if key == Esc(false) && HeldSince(before).None? then Some(now) else None
      case Fire(gen) => if gen + 1 == Holds(before) then None else HeldSince(before)
  }

  lemma {:induction false} HeldIsPending(es: seq<Event>)
    ensures var s, h := Exec(es), HeldSince(es);
            && (s.pending <==> h.Some?) && (s.pending ==> s.at == h.value)
            && Holds(es) == s.gen + if s.pending then 1 else 0
    decreases |es|
  {
    if es != [] {
      HeldIsPending(es[..|es| - 1]);
      EveryRunConserves(es[..|es| - 1]);
    }
  }

  /** Every run, key by key.  A single unmodified rune less than 50 ms after a held Esc makes an Alt
      chord, whatever came before; any other key, or a later one, lets the Esc go first. */
  lemma {:induction false} KeyDispatch(es: seq<Event>, key: Key, now: int)
    ensures var more := Exec(es + [Press(key, now)]).dispatched;
            var was := Exec(es).dispatched;
            match HeldSince(es)
            case Some(at) =>
              if key.Runes? && |key.runes| == 1 && !key.alt && now - at < 50 then
                more == was + [Runes(key.runes, true)]
              else more == was + [Esc(false), key]
            case None =>
              if key.Esc? then more == was + (if key.alt then [Esc(false), Esc(false)] else [])
              else more == was + [key]
  {
    HeldIsPending(es);
    assert (es + [Press(key, now)])[..|es|] == es;
  }

  /** And timer by timer: only that of the held Esc lets it go. */
  lemma {:induction false} TimerDispatch(es: seq<Event>, gen: nat)
    ensures var was := Exec(es).dispatched;
            Exec(es + [Fire(gen)]).dispatched
            == was + if HeldSince(es).Some? && gen + 1 == Holds(es) then [Esc(false)] else []
  {
    HeldIsPending(es);
    EveryRunConserves(es);
    assert (es + [Fire(gen)])[..|es|] == es;
    assert Exec(es).dispatched + [] == Exec(es).dispatched;
  }

  // ---------------------------------------------------------------------------
  // The implementation
  // ---------------------------------------------------------------------------

  class Filter {
    var escPending: bool
    var escKey: Key
    var escAt: int
    var escGen: nat
    var timers: multiset<nat>
    var dispatched: seq<Key>

    ghost predicate Valid()
      reads this
    {
      escPending ==> escKey == Esc(false)
    }

    ghost function View(): State
      reads this
    {
      State(escPending, escAt, escGen, timers, dispatched)
    }

    constructor ()
      ensures Valid() && View() == START
    {
      escPending, escKey, escAt, escGen := false, Esc(false), 0, 0;
      timers, dispatched := multiset{}, [];
    }

    method Dispatch(key: Key)
      modifies this`dispatched
      ensures dispatched == old(dispatched) + [key]
    {
      dispatched := dispatched + [key];
    }

    method DispatchTwo(first: Key, second: Key)
      modifies this`dispatched
      ensures dispatched == old(dispatched) + [first, second]
    {
      Dispatch(first);
      Dispatch(second);
    }

    method HandleKey(key: Key, now: int)
      requires Valid()
      modifies this
      ensures Valid() && View() == OnKey(old(View()), key, now)
      ensures old(escPending) && key.Runes? && |key.runes| == 1 && !key.alt && now - old(escAt) < 50 ==>
        dispatched == old(dispatched) + [Runes(key.runes, true)] && !escPending
      ensures old(escPending) && !(key.Runes? && |key.runes| == 1 && !key.alt && now - old(escAt) < 50) ==>
        dispatched == old(dispatched) + [Esc(false), key] && !escPending
      ensures !old(escPending) && key == Esc(false) ==>
        dispatched == old(dispatched) && escPending && escAt == now
      ensures !old(escPending) && key != Esc(false) ==>
        && dispatched == old(dispatched) + (if key == Esc(true) then [Esc(false), Esc(false)] else [key])
        && !escPending
    {
      if escPending {
        HandleKeyAfterEsc(key, now);
        return;
      }
      if key.Esc? && key.alt {
        DispatchTwo(Esc(false), Esc(false));
        return;
      }
      if key.Esc? && !key.alt {
        escPending := true;
        escKey := key;
        escAt := now;
        timers := timers + multiset{escGen};
        assert dispatched == old(dispatched) + [];
        return;
      }
      Dispatch(key);
    }

    method HandleKeyAfterEsc(key: Key, now: int)
      requires Valid() && escPending
      modifies this`escPending, this`escGen, this`dispatched
      ensures Valid() && View() == OnKey(old(View()), key, now)
    {
      escPending := false;
      escGen := escGen + 1;
      if now - escAt < ESC_DISAMBIGUATE_TIMEOUT && key.Runes? && |key.runes| == 1 && !key.alt {
        Dispatch(Runes(key.runes, true));
        return;
      }
      DispatchTwo(escKey, key);
    }

    method HandleTick(gen: nat)
      requires Valid() && gen in timers
      modifies this
      ensures Valid() && View() == OnTick(old(View()), gen)
    {
      timers := timers - multiset{gen};
      if escPending && gen == escGen {
        escPending := false;
        escGen := escGen + 1;
        Dispatch(escKey);
      }
    }
  }
}
