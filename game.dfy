/**
 * src/game.rs: the player's three ammunition counters, the reload clock that
 * refills them, the event handler that applies counter and speed changes and
 * reports them to the HUD, and the hh:mm:ss game clock.
 */
module Game {
  import opened Wrappers
  import opened TimeSteps

  /** `GameState::MAX_AMMO` */
  const MAX_AMMO: nat := 3

  /** A `u8`. */
  type U8 = n: nat | n < 256

  /** The three counters of a `GameState`, as a value. */
  datatype Ammo = Ammo(flower: U8, tree: U8, delete: U8)

  class GameState {
    var flowerAmmo: U8
    var treeAmmo: U8
    var deleteAmmo: U8

    /** `GameState::default()`: every counter full. */
    constructor ()
      ensures flowerAmmo == MAX_AMMO && treeAmmo == MAX_AMMO && deleteAmmo == MAX_AMMO
    {
      flowerAmmo, treeAmmo, deleteAmmo := MAX_AMMO, MAX_AMMO, MAX_AMMO;
    }

    /** The counters as a value. */
    function Snapshot(): Ammo
      reads this
    {
      Ammo(flowerAmmo, treeAmmo, deleteAmmo)
    }
  }

  /** `ByteOp` */
  datatype ByteOp = Increment | Decrement | Set(val: U8)

  /** `SpeedOp`: `Set` carries the speed of a `TimeStep`. */
  datatype SpeedOp = Toggle | SetSpeed(speed: real)

  /** `GameEvent` */
  datatype GameEvent = Flower(op: ByteOp) | Tree(op: ByteOp) | Delete(op: ByteOp) | SpeedChange(sop: SpeedOp)

  /** `HudUpdateEvent`: the new value of a meter. */
  datatype HudUpdateEvent = FlowerMeter(value: U8) | TreeMeter(value: U8) | DeleteMeter(value: U8) | SpeedMeter(meter: nat)

  /** `operate` does not overflow or underflow the `u8` (Rust panics there in a debug build). */
  predicate Defined(op: ByteOp, v: U8) {
    match op
    case Increment => v < 255
    case Decrement => v > 0
    case Set(_) => true
  }

  /** `ByteOp::operate`: the new value of the operand, which is also what it returns. */
  function Operate(op: ByteOp, v: U8): (r: U8)
    requires Defined(op, v)
    ensures op == Increment ==> Defined(Decrement, r) && r > v
    ensures op == Decrement ==> Defined(Increment, r) && r < v
  {
    match op
    case Increment => v + 1
    case Decrement => v - 1
    case Set(val) => val
  }

  /** `Increment` and `Decrement` undo each other, and `Set` forgets the old value. */
  lemma OperateInverse(v: U8, w: U8, a: U8)
    requires 0 < v && w < 255
    ensures Defined(Increment, Operate(Decrement, v)) && Operate(Increment, Operate(Decrement, v)) == v
    ensures Defined(Decrement, Operate(Increment, w)) && Operate(Decrement, Operate(Increment, w)) == w
    ensures Operate(Set(a), v) == Operate(Set(a), w) == a
  {
  }

  /** A `Decrement` of one of the three counters. */
  predicate IsDecrement(e: GameEvent) {
    match e
    case Flower(op) => op == Decrement
    case Tree(op) => op == Decrement
    case Delete(op) => op == Decrement
    case SpeedChange(_) => false
  }

  /** An `Increment` of one of the three counters. */
  predicate IsIncrement(e: GameEvent) {
    match e
    case Flower(op) => op == Increment
    case Tree(op) => op == Increment
    case Delete(op) => op == Increment
    case SpeedChange(_) => false
  }

  /**
   * `reload` when its clock fires: one `Increment` for each counter below
   * `MAX_AMMO`, flower then tree then delete; nothing when the clock has not fired.
   */
  function Reload(a: Ammo, fired: bool): (es: seq<GameEvent>)
    ensures |es| <= 3
    ensures Flower(Increment) in es <==> fired && a.flower < MAX_AMMO
    ensures Tree(Increment) in es <==> fired && a.tree < MAX_AMMO
    ensures Delete(Increment) in es <==> fired && a.delete < MAX_AMMO
    ensures forall i :: 0 <= i < |es| ==> IsIncrement(es[i])
    ensures forall i, j :: 0 <= i < j < |es| ==> es[i] != es[j]
  {
    if !fired then []
    else
      (if a.flower < MAX_AMMO then [Flower(Increment)] else []) +
      (if a.tree < MAX_AMMO then [Tree(Increment)] else []) +
      (if a.delete < MAX_AMMO then [Delete(Increment)] else [])
  }

  /** The game state and speed after one event, and what the HUD is told; `None` where Rust panics. */
  datatype Outcome = Outcome(ammo: Ammo, speed: real, hud: seq<HudUpdateEvent>)

  /** One event of `handle_game_events`. */
  function ApplyGameEvent(a: Ammo, speed: real, e: GameEvent): (r: Option<Outcome>)
    ensures r.Some? ==> |r.value.hud| == 1
    ensures e.SpeedChange? ==> (r.Some? <==> e.sop == Toggle)
    ensures e.Flower? ==> (r.Some? <==> Defined(e.op, a.flower))
    ensures e.Tree? ==> (r.Some? <==> Defined(e.op, a.tree))
    ensures e.Delete? ==> (r.Some? <==> Defined(e.op, a.delete))
  {
    match e
    case Flower(op) =>
      if Defined(op, a.flower) then Some(Outcome(a.(flower := Operate(op, a.flower)), speed, [FlowerMeter(Operate(op, a.flower))])) else None
    case Tree(op) =>
      if Defined(op, a.tree) then Some(Outcome(a.(tree := Operate(op, a.tree)), speed, [TreeMeter(Operate(op, a.tree))])) else None
    case Delete(op) =>
      if Defined(op, a.delete) then Some(Outcome(a.(delete := Operate(op, a.delete)), speed, [DeleteMeter(Operate(op, a.delete))])) else None
    case SpeedChange(Toggle) =>
      var t := ToggleSpeed(speed);
      Some(Outcome(a, t.speed, [SpeedMeter(t.meter)]))
    case SpeedChange(SetSpeed(_)) => None
  }

  /** `handle_game_events` over a queue of events, applied in order. */
  function ApplyGameEvents(a: Ammo, speed: real, es: seq<GameEvent>): (r: Option<Outcome>)
    ensures r.Some? ==> |r.value.hud| == |es|
  {
    if es == [] then Some(Outcome(a, speed, []))
    else match ApplyGameEvents(a, speed, es[..|es| - 1])
      case None => None
      case Some(o) =>
        match ApplyGameEvent(o.ammo, o.speed, es[|es| - 1])
        case None => None
        case Some(o') => Some(Outcome(o'.ammo, o'.speed, o.hud + o'.hud))
  }

  /** Each event reports exactly one HUD update, and only the counter it names changes. */
  lemma ApplyGameEventFrame(a: Ammo, speed: real, e: GameEvent)
    requires ApplyGameEvent(a, speed, e).Some?
    ensures var o := ApplyGameEvent(a, speed, e).value;
            |o.hud| == 1 &&
            (e.Flower? ==> o.ammo.tree == a.tree && o.ammo.delete == a.delete && o.speed == speed && o.hud[0] == FlowerMeter(o.ammo.flower)) &&
            (e.Tree? ==> o.ammo.flower == a.flower && o.ammo.delete == a.delete && o.speed == speed && o.hud[0] == TreeMeter(o.ammo.tree)) &&
            (e.Delete? ==> o.ammo.flower == a.flower && o.ammo.tree == a.tree && o.speed == speed && o.hud[0] == DeleteMeter(o.ammo.delete)) &&
            (e.SpeedChange? ==> e.sop == Toggle && o.ammo == a && o.hud[0] == SpeedMeter(ToggleSpeed(speed).meter))
  {
  }

  /** A queue that is handled without panicking has a prefix that is handled without panicking. */
  lemma {:induction false} ApplyGameEventsPrefix(a: Ammo, speed: real, es: seq<GameEvent>, n: nat)
    requires n <= |es| && ApplyGameEvents(a, speed, es).Some?
    ensures ApplyGameEvents(a, speed, es[..n]).Some?
    decreases |es|
  {
    if n < |es| {
      var front := es[..|es| - 1];
      assert ApplyGameEvents(a, speed, front).Some?;
      ApplyGameEventsPrefix(a, speed, front, n);
      assert front[..n] == es[..n];
    } else {
      assert es[..n] == es;
    }
  }

  /** `handle_game_events`: the events are applied in order and each reports its new value. */
  method HandleGameEvents(gs: GameState, ts: TimeStep, events: seq<GameEvent>) returns (hud: seq<HudUpdateEvent>)
    requires ApplyGameEvents(gs.Snapshot(), ts.speed, events).Some?
    modifies gs, ts
    ensures Outcome(gs.Snapshot(), ts.speed, hud) == ApplyGameEvents(old(gs.Snapshot()), old(ts.speed), events).value
    ensures ts.dt == old(ts.dt)
  {
    ghost var a0, s0 := gs.Snapshot(), ts.speed;
    hud := [];
    for i := 0 to |events|
      invariant ts.dt == old(ts.dt)
      invariant ApplyGameEvents(a0, s0, events[..i]) == Some(Outcome(gs.Snapshot(), ts.speed, hud))
    {
      ApplyGameEventsPrefix(a0, s0, events, i + 1);
      assert events[..i + 1][..i] == events[..i];
      match events[i]
      case Flower(op) =>
        gs.flowerAmmo := Operate(op, gs.flowerAmmo);
        hud := hud + [FlowerMeter(gs.flowerAmmo)];
      case Tree(op) =>
        gs.treeAmmo := Operate(op, gs.treeAmmo);
        hud := hud + [TreeMeter(gs.treeAmmo)];
      case Delete(op) =>
        gs.deleteAmmo := Operate(op, gs.deleteAmmo);
        hud := hud + [DeleteMeter(gs.deleteAmmo)];
      case SpeedChange(sop) =>
        match sop
        case Toggle =>
          var meter := ts.Toggle();
          hud := hud + [SpeedMeter(meter)];
        case SetSpeed(_) =>
          assert false;
    }
    assert events[..|events|] == events;
  }

  /**
   * The events one frame can carry for one counter: at most one `Decrement`,
   * sent only while the counter's snapshot is positive (one click per button
   * per frame, guarded by the ammo), and at most one `Increment`, sent only
   * while it is below `MAX_AMMO` (the reload guard). No `Set` is ever sent.
   */
  predicate CounterFrame(v: U8, es: multiset<GameEvent>, dec: GameEvent, inc: GameEvent) {
    es[dec] <= 1 && es[inc] <= 1 && (es[dec] == 1 ==> v > 0) && (es[inc] == 1 ==> v < MAX_AMMO)
  }

  /** Every event of the frame is a counter `Increment` or `Decrement`, or a speed toggle. */
  predicate FrameEvent(e: GameEvent) {
    match e
    case Flower(op) => !op.Set?
    case Tree(op) => !op.Set?
    case Delete(op) => !op.Set?
    case SpeedChange(sop) => sop == Toggle
  }

  /** The events of one frame, in whatever order they arrive. */
  predicate FrameEvents(a: Ammo, es: seq<GameEvent>) {
    (forall i :: 0 <= i < |es| ==> FrameEvent(es[i])) &&
    CounterFrame(a.flower, multiset(es), Flower(Decrement), Flower(Increment)) &&
    CounterFrame(a.tree, multiset(es), Tree(Decrement), Tree(Increment)) &&
    CounterFrame(a.delete, multiset(es), Delete(Decrement), Delete(Increment))
  }

  /** The counter after the frame's events: one down per `Decrement`, one up per `Increment`. */
  function Net(v: U8, es: multiset<GameEvent>, dec: GameEvent, inc: GameEvent): int {
    v - es[dec] + es[inc]
  }

  /** The events of one frame are handled without panicking, and each counter ends at its net value. */
  lemma {:induction false} FrameNet(a: Ammo, speed: real, es: seq<GameEvent>)
    requires a.flower <= MAX_AMMO && a.tree <= MAX_AMMO && a.delete <= MAX_AMMO
    requires FrameEvents(a, es)
    ensures ApplyGameEvents(a, speed, es).Some?
    ensures NetAmmo(a, es, ApplyGameEvents(a, speed, es).value.ammo)
  {
    if es != [] {
      var front, e := es[..|es| - 1], es[|es| - 1];
      assert es == front + [e];
      assert multiset(es) == multiset(front) + multiset{e};
      assert FrameEvents(a, front);
      FrameNet(a, speed, front);
      var o := ApplyGameEvents(a, speed, front).value;
      FrameStep(a, multiset(front), e, o.ammo, o.speed);
    }
  }

  /** Each counter of `r` is at its net value after the events `es` from `a`. */
  predicate NetAmmo(a: Ammo, es: seq<GameEvent>, r: Ammo) {
    r.flower == Net(a.flower, multiset(es), Flower(Decrement), Flower(Increment)) &&
    r.tree == Net(a.tree, multiset(es), Tree(Decrement), Tree(Increment)) &&
    r.delete == Net(a.delete, multiset(es), Delete(Decrement), Delete(Increment))
  }

  /** The last event of a frame is handled without panicking and moves its counter by one. */
  lemma FrameStep(a: Ammo, ms: multiset<GameEvent>, e: GameEvent, o: Ammo, speed: real)
    requires a.flower <= MAX_AMMO && a.tree <= MAX_AMMO && a.delete <= MAX_AMMO
    requires FrameEvent(e)
    requires CounterFrame(a.flower, ms + multiset{e}, Flower(Decrement), Flower(Increment))
    requires CounterFrame(a.tree, ms + multiset{e}, Tree(Decrement), Tree(Increment))
    requires CounterFrame(a.delete, ms + multiset{e}, Delete(Decrement), Delete(Increment))
    requires o.flower == Net(a.flower, ms, Flower(Decrement), Flower(Increment))
    requires o.tree == Net(a.tree, ms, Tree(Decrement), Tree(Increment))
    requires o.delete == Net(a.delete, ms, Delete(Decrement), Delete(Increment))
    ensures ApplyGameEvent(o, speed, e).Some?
    ensures var r := ApplyGameEvent(o, speed, e).value.ammo;
            r.flower == Net(a.flower, ms + multiset{e}, Flower(Decrement), Flower(Increment)) &&
            r.tree == Net(a.tree, ms + multiset{e}, Tree(Decrement), Tree(Increment)) &&
            r.delete == Net(a.delete, ms + multiset{e}, Delete(Decrement), Delete(Increment))
  {
  }

  /**
   * With at most one click per button per frame, every counter stays within
   * 0 to `MAX_AMMO`, whatever order the frame's events arrive in.
   */
  lemma AmmoStaysInRange(a: Ammo, speed: real, es: seq<GameEvent>)
    requires a.flower <= MAX_AMMO && a.tree <= MAX_AMMO && a.delete <= MAX_AMMO
    requires FrameEvents(a, es)
    ensures ApplyGameEvents(a, speed, es).Some?
    ensures var r := ApplyGameEvents(a, speed, es).value.ammo;
            r.flower <= MAX_AMMO && r.tree <= MAX_AMMO && r.delete <= MAX_AMMO
  {
    FrameNet(a, speed, es);
  }

  /** The events `reload` sends fit in a frame on any counters within range. */
  lemma ReloadFitsFrame(a: Ammo, fired: bool)
    ensures FrameEvents(a, Reload(a, fired))
  {
    var es := Reload(a, fired);
    forall i | 0 <= i < |es|
      ensures FrameEvent(es[i])
    {
      assert IsIncrement(es[i]);
    }
    IncrementsCounter(es, a.flower, Flower(Decrement), Flower(Increment));
    IncrementsCounter(es, a.tree, Tree(Decrement), Tree(Increment));
    IncrementsCounter(es, a.delete, Delete(Decrement), Delete(Increment));
  }

  /**
   * Events that are all distinct increments send no `Decrement` of a counter
   * and one `Increment` at most, which fits when it is sent only below `MAX_AMMO`.
   */
  lemma IncrementsCounter(es: seq<GameEvent>, v: U8, dec: GameEvent, inc: GameEvent)
    requires forall i :: 0 <= i < |es| ==> IsIncrement(es[i])
    requires forall i, j :: 0 <= i < j < |es| ==> es[i] != es[j]
    requires IsDecrement(dec)
    requires inc in es ==> v < MAX_AMMO
    ensures CounterFrame(v, multiset(es), dec, inc)
  {
    forall i | 0 <= i < |es|
      ensures es[i] != dec
    {
      assert IsIncrement(es[i]);
    }
    assert dec !in es;
    DistinctCountsOne(es, inc);
  }

  /** In a sequence without repeats every value occurs at most once. */
  lemma {:induction false} DistinctCountsOne<T>(es: seq<T>, e: T)
    requires forall i, j :: 0 <= i < j < |es| ==> es[i] != es[j]
    ensures multiset(es)[e] <= 1
  {
    if es != [] {
      var front := es[..|es| - 1];
      assert es == front + [es[|es| - 1]];
      DistinctCountsOne(front, e);
      if es[|es| - 1] == e {
        assert e !in front;
      }
    }
  }

  /** `game_time`'s hours, minutes and seconds of `t` seconds. */
  datatype Hms = Hms(h: nat, m: nat, s: nat)

  function Split(t: nat): Hms {
    Hms(t / 3600, (t / 60) % 60, t % 60)
  }

  /** Minutes and seconds are below 60, and together with the hours they make up `t` again. */
  lemma SplitRecombines(t: nat)
    ensures Split(t).m < 60 && Split(t).s < 60
    ensures Split(t).h * 3600 + Split(t).m * 60 + Split(t).s == t
  {
    var q := t / 60;
    assert t == q * 60 + t % 60;
    assert q == (q / 60) * 60 + q % 60;
    assert q / 60 == t / 3600;
  }

  /** Every character of `s` is a decimal digit. */
  predicate AllDigits(s: string) {
    s == [] || (AllDigits(s[..|s| - 1]) && '0' <= s[|s| - 1] <= '9')
  }

  /** The decimal digits of `n`, no leading zero. */
  function Decimal(n: nat): (s: string)
    ensures |s| >= 1
  {
    if n < 10 then [Digit(n)] else Decimal(n / 10) + [Digit(n % 10)]
  }

  function Digit(d: nat): char
    requires d < 10
  {
    ('0' as int + d) as char
  }

  /** Two-digit zero-padded formatting: the decimal digits of `n`, padded on the left with `0` to two characters. */
  function Pad2(n: nat): string {
    if n < 10 then ['0', Digit(n)] else Decimal(n)
  }

  /** The value of a string of decimal digits. */
  function ValueOf(s: string): nat
    requires AllDigits(s)
  {
    if s == [] then 0 else ValueOf(s[..|s| - 1]) * 10 + (s[|s| - 1] as int - '0' as int)
  }

  /** `Decimal` gives digits only, which `ValueOf` reads back. */
  lemma {:induction false} DecimalValue(n: nat)
    ensures AllDigits(Decimal(n)) && ValueOf(Decimal(n)) == n
  {
    if n >= 10 {
      DecimalValue(n / 10);
      var s := Decimal(n);
      assert s[..|s| - 1] == Decimal(n / 10);
    }
  }

  /** Below 100, zero-padded formatting gives exactly two digits, which read back as `n`. */
  lemma Pad2Value(n: nat)
    requires n < 100
    ensures |Pad2(n)| == 2
    ensures forall i :: 0 <= i < 2 ==> '0' <= Pad2(n)[i] <= '9'
    ensures AllDigits(Pad2(n)) && ValueOf(Pad2(n)) == n
  {
    if n >= 10 {
      DecimalValue(n);
      assert Decimal(n) == Decimal(n / 10) + [Digit(n % 10)];
    } else {
      var p := Pad2(n);
      assert p[..1] == ['0'];
      assert p[..1][..0] == [];
      assert ValueOf(p[..1]) == 0;
      assert p[1] as int - '0' as int == n;
    }
  }

  /** The game time as hours, minutes and seconds, each zero-padded to two digits, joined by colons. */
  function Clock(t: nat): (c: string)
    ensures |c| >= 8
  {
    var hms := Split(t);
    Pad2Value(hms.m);
    Pad2Value(hms.s);
    Pad2(hms.h) + ":" + Pad2(hms.m) + ":" + Pad2(hms.s)
  }

  /** Below 100 hours, the clock text is `hh:mm:ss`, and reading its three fields back gives `t`. */
  lemma ClockReadsBack(t: nat)
    requires t < 100 * 3600
    ensures |Clock(t)| == 8 && Clock(t)[2] == ':' && Clock(t)[5] == ':'
    ensures forall i :: 0 <= i < 8 && i != 2 && i != 5 ==> '0' <= Clock(t)[i] <= '9'
    ensures AllDigits(Clock(t)[0..2]) && AllDigits(Clock(t)[3..5]) && AllDigits(Clock(t)[6..8])
    ensures ValueOf(Clock(t)[0..2]) * 3600 + ValueOf(Clock(t)[3..5]) * 60 + ValueOf(Clock(t)[6..8]) == t
  {
    var hms := Split(t);
    SplitRecombines(t);
    Pad2Value(hms.h);
    Pad2Value(hms.m);
    Pad2Value(hms.s);
    var c := Clock(t);
    assert c[0..2] == Pad2(hms.h);
    assert c[3..5] == Pad2(hms.m);
    assert c[6..8] == Pad2(hms.s);
  }

  /** `game_time`'s counter of seconds since the start. */
  class GameClock {
    var seconds: nat

    constructor ()
      ensures seconds == 0
    {
      seconds := 0;
    }

    /**
     * `game_time`: the timer ticks once per timer text; on each firing one
     * second is added and that text shows the new time. `fired[i]` is whether
     * the tick for the `i`th text finished the timer.
     */
    method Tick(fired: seq<bool>) returns (shown: seq<Option<string>>)
      modifies this
      ensures seconds == old(seconds) + FiredBefore(fired, |fired|)
      ensures ShownFor(old(seconds), fired, |fired|, shown)
    {
      shown := [];
      for i := 0 to |fired|
        invariant seconds == old(seconds) + FiredBefore(fired, i)
        invariant ShownFor(old(seconds), fired, i, shown)
      {
        var next: Option<string> := None;
        if fired[i] {
          seconds := seconds + 1;
          next := Some(Clock(seconds));
        }
        ShownExtends(old(seconds), fired, i, shown, next);
        shown := shown + [next];
      }
    }
  }

  /**
   * What the timer text shows over the first `n` ticks from `start` seconds:
   * the `i`th tick shows the clock exactly when it fired, at the time after
   * its firing.
   */
  ghost predicate ShownFor(start: nat, fired: seq<bool>, n: nat, shown: seq<Option<string>>)
    requires n <= |fired|
  {
    |shown| == n &&
    forall i {:trigger shown[i]} :: 0 <= i < n ==>
      shown[i] == if fired[i] then Some(Clock(start + FiredBefore(fired, i + 1))) else None
  }

  /** One more tick extends what is shown by that tick's text. */
  lemma ShownExtends(start: nat, fired: seq<bool>, n: nat, shown: seq<Option<string>>, next: Option<string>)
    requires n < |fired| && ShownFor(start, fired, n, shown)
    requires next == if fired[n] then Some(Clock(start + FiredBefore(fired, n + 1))) else None
    ensures ShownFor(start, fired, n + 1, shown + [next])
  {
    forall i | 0 <= i < n + 1
      ensures (shown + [next])[i] == if fired[i] then Some(Clock(start + FiredBefore(fired, i + 1))) else None
    {
      if i < n {
        assert (shown + [next])[i] == shown[i];
      } else {
        assert i + 1 == n + 1 && (shown + [next])[i] == next;
      }
    }
  }

  /** How many of the first `n` ticks fired. */
  function FiredBefore(fired: seq<bool>, n: nat): (k: nat)
    requires n <= |fired|
    ensures k <= n
    ensures n > 0 && fired[n - 1] ==> k > 0
  {
    if n == 0 then 0 else FiredBefore(fired, n - 1) + (if fired[n - 1] then 1 else 0)
  }
}
