/**
 * What the mode handlers see: each call of a handler function is one delivery
 * of an event (START, STOP, SET_SUBMODE, NEW_AD1) with a 64-bit value.  A
 * handler is identified only by an abstract id; the misc ("off") handler is
 * the one whose body is part of the engine.
 *
 * The dispatcher's discipline is a small automaton over the deliveries of one
 * engine session: a START opens a handler, a STOP closes the open handler,
 * SET_SUBMODE and NEW_AD1 go only to the open handler.
 */
module Protocol {

  datatype Handler = Misc | Mode(id: nat)

  datatype EventKind = Start | Stop | SetSubmode | NewAd1

  /** One call `handler(event, value)`. */
  datatype Delivery = Delivery(handler: Handler, event: EventKind, value: int)

  /** Where a session's delivery sequence has got to. */
  datatype Phase = Idle | Running(handler: Handler) | Broken

  function Advance(p: Phase, d: Delivery): Phase {
    match d.event
    case Start => if p == Idle then Running(d.handler) else Broken
    case Stop => if p == Running(d.handler) then Idle else Broken
    case SetSubmode => if p == Running(d.handler) then p else Broken
    case NewAd1 => if p == Running(d.handler) then p else Broken
  }

  /** The phase reached from Idle by the deliveries t, in order. */
  function PhaseAfter(t: seq<Delivery>): Phase {
    if t == [] then Idle else Advance(PhaseAfter(t[..|t| - 1]), t[|t| - 1])
  }

  /** A session's deliveries are well formed when the automaton never breaks. */
  predicate WellFormed(t: seq<Delivery>) {
    PhaseAfter(t) != Broken
  }

  /** Appending a delivery advances the automaton by that delivery. */
  lemma PhaseAfterSnoc(t: seq<Delivery>, d: Delivery)
    ensures PhaseAfter(t + [d]) == Advance(PhaseAfter(t), d)
  {
    assert (t + [d])[..|t|] == t;
  }

  /** Once broken, a delivery sequence stays broken. */
  lemma {:induction false} BrokenIsFinal(t: seq<Delivery>, k: nat)
    requires k <= |t|
    requires PhaseAfter(t[..k]) == Broken
    ensures PhaseAfter(t) == Broken
    decreases |t| - k
  {
    if k < |t| {
      assert t[..k + 1] == t[..k] + [t[k]];
      PhaseAfterSnoc(t[..k], t[k]);
      BrokenIsFinal(t, k + 1);
    } else {
      assert t[..k] == t;
    }
  }

  /** Every prefix of a well-formed sequence is well formed. */
  lemma PrefixWellFormed(t: seq<Delivery>, k: nat)
    requires k <= |t| && WellFormed(t)
    ensures WellFormed(t[..k])
  {
    if PhaseAfter(t[..k]) == Broken {
      BrokenIsFinal(t, k);
    }
  }

  /**
   * Between deliveries i and j of a well-formed session, if no STOP occurs,
   * the handler that was running after delivery i is still running.
   */
  lemma {:induction false} RunsUntilStop(t: seq<Delivery>, i: nat, j: nat, h: Handler)
    requires i <= j <= |t| && WellFormed(t)
    requires PhaseAfter(t[..i]) == Running(h)
    requires forall k :: i <= k < j ==> t[k].event != Stop
    ensures PhaseAfter(t[..j]) == Running(h)
    decreases j - i
  {
    if i < j {
      assert t[..j] == t[..j - 1] + [t[j - 1]];
      PhaseAfterSnoc(t[..j - 1], t[j - 1]);
      RunsUntilStop(t, i, j - 1, h);
      PrefixWellFormed(t, j);
    }
  }

  /**
   * In a well-formed session no handler is started twice without a STOP in
   * between: any two STARTs are separated by a STOP.
   */
  lemma StartsSeparatedByStop(t: seq<Delivery>, i: nat, j: nat)
    requires WellFormed(t) && i < j < |t|
    requires t[i].event == Start && t[j].event == Start
    ensures exists k :: i < k < j && t[k].event == Stop
  {
    if forall k :: i < k < j ==> t[k].event != Stop {
      PrefixWellFormed(t, i + 1);
      assert t[..i + 1] == t[..i] + [t[i]];
      PhaseAfterSnoc(t[..i], t[i]);
      RunsUntilStop(t, i + 1, j, t[i].handler);
      assert t[..j + 1] == t[..j] + [t[j]];
      PhaseAfterSnoc(t[..j], t[j]);
      PrefixWellFormed(t, j + 1);
      assert false;
    }
  }

  /** In a well-formed session every delivery goes to a handler that had been started. */
  lemma DeliveredAfterStart(t: seq<Delivery>, j: nat)
    requires WellFormed(t) && j < |t|
    ensures exists i :: 0 <= i <= j && t[i].event == Start && t[i].handler == t[j].handler
  {
    PrefixWellFormed(t, j + 1);
    assert t[..j + 1] == t[..j] + [t[j]];
    PhaseAfterSnoc(t[..j], t[j]);
    if t[j].event != Start {
      var p := PhaseAfter(t[..j]);
      assert p == Running(t[j].handler);
      var i := LastStart(t, j, t[j].handler);
    }
  }

  /** The START that opened the handler running after the first j deliveries. */
  lemma {:induction false} LastStart(t: seq<Delivery>, j: nat, h: Handler) returns (i: nat)
    requires j <= |t| && PhaseAfter(t[..j]) == Running(h)
    ensures i < j && t[i].event == Start && t[i].handler == h
    decreases j
  {
    assert j > 0;
    assert t[..j] == t[..j - 1] + [t[j - 1]];
    PhaseAfterSnoc(t[..j - 1], t[j - 1]);
    if t[j - 1].event == Start {
      i := j - 1;
    } else {
      i := LastStart(t, j - 1, h);
    }
  }

  /** A STOP to the running handler followed by a START opens the new one. */
  lemma Transition(t: seq<Delivery>, old_h: Handler, new_h: Handler, sub: int)
    requires PhaseAfter(t) == Running(old_h)
    ensures PhaseAfter(t + [Delivery(old_h, Stop, 0), Delivery(new_h, Start, sub)]) == Running(new_h)
  {
    var s := t + [Delivery(old_h, Stop, 0)];
    PhaseAfterSnoc(t, Delivery(old_h, Stop, 0));
    assert t + [Delivery(old_h, Stop, 0), Delivery(new_h, Start, sub)] == s + [Delivery(new_h, Start, sub)];
    PhaseAfterSnoc(s, Delivery(new_h, Start, sub));
  }
}
