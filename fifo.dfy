/**
 * FIFO lot matching (`AutomationSimulator._simulate_fifo`): subscriptions open lots at
 * the back of the list, redemptions consume lots from the front, and the remaining
 * units are valued at the last known unit value.
 */
module Fifo {
  import opened Wrappers
  import opened Text
  import Movements

  /** Quantities at or below this are treated as zero. */
  const Tolerance: real := 0.000000001

  /** An open subscription tranche: remaining units and the unit value it was bought at. */
  datatype Lot = Lot(cuotas: real, valor: real)

  /** The simulation's state between movements. */
  datatype State = State(lotes: seq<Lot>, ultimoValor: real)

  predicate IsSubscription(m: Movements.Movement) {
    StartsWith(Upper(m.concepto), "SUSCRIPCION")
  }

  predicate IsRedemption(m: Movements.Movement) {
    StartsWith(Upper(m.concepto), "RESCATE")
  }

  function Abs(x: real): real { if x < 0.0 then -x else x }

  function Min(a: real, b: real): real { if b < a then b else a }

  /** Units still open across a list of lots (`sum(c for c, _ in lotes)`). */
  function SumUnits(lotes: seq<Lot>): real {
    if lotes == [] then 0.0 else lotes[0].cuotas + SumUnits(lotes[1..])
  }

  /** The open units valued at the last known unit value (`saldo_cuotas * ultimo_valor`). */
  function Valuation(s: State): real {
    SumUnits(s.lotes) * s.ultimoValor
  }

  predicate NonNegative(lotes: seq<Lot>) {
    forall i :: 0 <= i < |lotes| ==> lotes[i].cuotas >= 0.0
  }

  /**
   * The redemption loop: take `min(front, remaining)` from the front lot, drop the lot
   * once it is within tolerance of zero, stop when the request is within tolerance or
   * no lot is left.
   */
  function Redeem(lotes: seq<Lot>, faltante: real): seq<Lot>
    decreases |lotes|, if faltante > Tolerance then 1 else 0
  {
    if faltante <= Tolerance || lotes == [] then lotes
    else
      var toma := Min(lotes[0].cuotas, faltante);
      var cuotas := lotes[0].cuotas - toma;
      if cuotas <= Tolerance then Redeem(lotes[1..], faltante - toma)
      else Redeem(lotes[0 := Lot(cuotas, lotes[0].valor)], faltante - toma)
  }

  /** One movement: update the last known value, then open or consume lots. */
  function Step(s: State, m: Movements.Movement): (r: State)
    ensures r.ultimoValor == m.valor.GetOr(s.ultimoValor)
    ensures IsSubscription(m) ==> r.lotes == s.lotes + [Lot(m.cuotapartes, r.ultimoValor)]
    ensures !IsSubscription(m) && IsRedemption(m) ==> r.lotes == Redeem(s.lotes, Abs(m.cuotapartes))
    ensures !IsSubscription(m) && !IsRedemption(m) ==> r.lotes == s.lotes
  {
    var ultimo := if m.valor.Some? then m.valor.value else s.ultimoValor;
    if IsSubscription(m) then
      State(s.lotes + [Lot(m.cuotapartes, Movements.OrElse(m.valor, ultimo))], ultimo)
    else if IsRedemption(m) then
      State(Redeem(s.lotes, Abs(m.cuotapartes)), ultimo)
    else
      State(s.lotes, ultimo)
  }

  /** The state after a sequence of movements, applied in order from no lots and value 0.0. */
  function Replay(ms: seq<Movements.Movement>): State {
    if ms == [] then State([], 0.0) else Step(Replay(ms[..|ms| - 1]), ms[|ms| - 1])
  }

  lemma {:induction false} SumUnitsNonNegative(lotes: seq<Lot>)
    requires NonNegative(lotes)
    ensures SumUnits(lotes) >= 0.0
  {
    if lotes != [] {
      SumUnitsNonNegative(lotes[1..]);
    }
  }

  /**
   * With non-negative lots, a redemption of `f` units keeps every lot non-negative and
   * lowers the open units by min(f, open units), up to the tolerance; it never leaves a
   * negative total and never adds units.
   */
  lemma {:induction false} RedeemConservation(lotes: seq<Lot>, f: real)
    requires NonNegative(lotes) && f >= 0.0
    ensures NonNegative(Redeem(lotes, f))
    ensures 0.0 <= SumUnits(Redeem(lotes, f)) <= SumUnits(lotes)
    ensures Min(f, SumUnits(lotes)) - Tolerance <= SumUnits(lotes) - SumUnits(Redeem(lotes, f))
    ensures SumUnits(lotes) - SumUnits(Redeem(lotes, f)) <= Min(f, SumUnits(lotes)) + Tolerance
  {
    SumUnitsNonNegative(lotes);
    if f > Tolerance && lotes != [] {
      var c := lotes[0].cuotas;
      var rest := lotes[1..];
      SumUnitsNonNegative(rest);
      if c <= f {
        RedeemConservation(rest, f - c);
      } else if c - f <= Tolerance {
        assert Redeem(lotes, f) == Redeem(rest, 0.0) == rest;
      } else {
        var front := lotes[0 := Lot(c - f, lotes[0].valor)];
        assert Redeem(lotes, f) == Redeem(front, 0.0) == front;
        assert front[1..] == rest;
        SumUnitsNonNegative(rest);
      }
    }
  }

  /**
   * A redemption only touches the front of the list: it drops some leading lots and may
   * lower the units of the next one, which keeps its unit value; the remaining lots are
   * the original ones, in their original order.
   */
  lemma {:induction false} RedeemTouchesFront(lotes: seq<Lot>, f: real)
    ensures |Redeem(lotes, f)| <= |lotes|
    ensures var r := Redeem(lotes, f); var k := |lotes| - |r|;
            r != [] ==> r[1..] == lotes[k + 1..] && r[0].valor == lotes[k].valor && r[0].cuotas <= lotes[k].cuotas
  {
    if f > Tolerance && lotes != [] {
      var c := lotes[0].cuotas;
      var rest := lotes[1..];
      if c <= f {
        RedeemTouchesFront(rest, f - c);
        var r := Redeem(rest, f - c);
        assert |lotes| - |r| == |rest| - |r| + 1;
        assert r != [] ==> lotes[|lotes| - |r| + 1..] == rest[|rest| - |r| + 1..];
        assert r != [] ==> lotes[|lotes| - |r|] == rest[|rest| - |r|];
      } else if c - f <= Tolerance {
        assert Redeem(lotes, f) == Redeem(rest, 0.0) == rest;
        assert rest != [] ==> lotes[2..] == rest[1..];
      } else {
        var front := lotes[0 := Lot(c - f, lotes[0].valor)];
        assert Redeem(lotes, f) == Redeem(front, 0.0) == front;
        assert front[1..] == lotes[1..];
      }
    }
  }

  /** The simulation's value is the unit value of the last movement that had one, or 0.0. */
  lemma {:induction false} LastKnownValue(ms: seq<Movements.Movement>)
    ensures (forall k :: 0 <= k < |ms| ==> ms[k].valor.None?) ==> Replay(ms).ultimoValor == 0.0
    ensures forall i :: 0 <= i < |ms| && ms[i].valor.Some? && (forall j :: i < j < |ms| ==> ms[j].valor.None?) ==>
              Replay(ms).ultimoValor == ms[i].valor.value
  {
    if ms != [] {
      var init := ms[..|ms| - 1];
      LastKnownValue(init);
      assert forall k :: 0 <= k < |init| ==> init[k] == ms[k];
    }
  }

  /** With non-negative subscriptions, no lot and no balance ever goes negative. */
  lemma {:induction false} ReplayNonNegative(ms: seq<Movements.Movement>)
    requires forall k :: 0 <= k < |ms| && IsSubscription(ms[k]) ==> ms[k].cuotapartes >= 0.0
    ensures NonNegative(Replay(ms).lotes)
    ensures SumUnits(Replay(ms).lotes) >= 0.0
  {
    if ms != [] {
      var init := ms[..|ms| - 1];
      assert forall k :: 0 <= k < |init| ==> init[k] == ms[k];
      ReplayNonNegative(init);
      var m := ms[|ms| - 1];
      if !IsSubscription(m) && IsRedemption(m) {
        RedeemConservation(Replay(init).lotes, Abs(m.cuotapartes));
      }
      SumUnitsNonNegative(Replay(ms).lotes);
    }
  }

  /** No concept is both: an upper-cased concept cannot start with both "SUSCRIPCION" and "RESCATE". */
  lemma SubscriptionIsNotRedemption(m: Movements.Movement)
    ensures IsSubscription(m) ==> !IsRedemption(m)
  {
    var u := Upper(m.concepto);
    assert IsSubscription(m) ==> u[..11][0] == u[0] == 'S';
    assert IsRedemption(m) ==> u[..7][0] == u[0] == 'R';
  }

  /** A concept written in capitals that starts with "SUSCRIPCION" is a subscription and not a redemption. */
  lemma SubscriptionConcept(m: Movements.Movement)
    requires StartsWith(m.concepto, "SUSCRIPCION")
    ensures IsSubscription(m) && !IsRedemption(m)
  {
    var u := Upper(m.concepto);
    UpperAt(m.concepto);
    assert forall i :: 0 <= i < 11 ==> m.concepto[i] == m.concepto[..11][i];
    assert forall i :: 0 <= i < 11 ==> u[i] == m.concepto[i];
    assert u[..11] == "SUSCRIPCION";
    SubscriptionIsNotRedemption(m);
  }

  /** A concept written in capitals that starts with "RESCATE" is a redemption and not a subscription. */
  lemma RedemptionConcept(m: Movements.Movement)
    requires StartsWith(m.concepto, "RESCATE")
    ensures IsRedemption(m) && !IsSubscription(m)
  {
    var u := Upper(m.concepto);
    UpperAt(m.concepto);
    assert forall i :: 0 <= i < 7 ==> m.concepto[i] == m.concepto[..7][i];
    assert forall i :: 0 <= i < 7 ==> u[i] == m.concepto[i];
    assert u[..7] == "RESCATE";
    SubscriptionIsNotRedemption(m);
  }

  lemma ReplayAppend(ms: seq<Movements.Movement>, m: Movements.Movement)
    ensures Replay(ms + [m]) == Step(Replay(ms), m)
  {
    assert (ms + [m])[..|ms|] == ms;
  }

  lemma RedeemAcrossLots()
    ensures Redeem([Lot(100.0, 10.0), Lot(50.0, 12.0)], 120.0) == [Lot(30.0, 12.0)]
  {
    assert Redeem([Lot(50.0, 12.0)], 20.0) == Redeem([Lot(30.0, 12.0)], 0.0);
  }

  lemma RedeemBeyondLots()
    ensures Redeem([Lot(10.0, 5.0), Lot(20.0, 5.0)], 50.0) == []
  {
    assert Redeem([Lot(20.0, 5.0)], 40.0) == Redeem([], 20.0);
  }

  /**
   * Lots are consumed oldest first: after subscribing 100 units at 10 and 50 at 12,
   * redeeming 120 empties the first lot and leaves 30 units of the second.
   */
  lemma OldestLotFirstExample(a: Movements.Movement, b: Movements.Movement, c: Movements.Movement)
    requires IsSubscription(a) && a.cuotapartes == 100.0 && a.valor == Some(10.0)
    requires IsSubscription(b) && b.cuotapartes == 50.0 && b.valor == Some(12.0)
    requires IsRedemption(c) && !IsSubscription(c) && c.cuotapartes == 120.0 && c.valor == None
    ensures Replay([a, b, c]) == State([Lot(30.0, 12.0)], 12.0)
  {
    ReplayAppend([], a);
    assert [] + [a] == [a];
    ReplayAppend([a], b);
    assert [a] + [b] == [a, b];
    ReplayAppend([a, b], c);
    assert [a, b] + [c] == [a, b, c];
    RedeemAcrossLots();
  }

  /**
   * A subscription without a unit value takes the last known one, and a redemption larger
   * than the open units empties the list instead of going negative.
   */
  lemma OverRedemptionExample(a: Movements.Movement, b: Movements.Movement, c: Movements.Movement)
    requires IsSubscription(a) && a.cuotapartes == 10.0 && a.valor == Some(5.0)
    requires IsSubscription(b) && b.cuotapartes == 20.0 && b.valor == None
    requires IsRedemption(c) && !IsSubscription(c) && c.cuotapartes == -50.0 && c.valor == None
    ensures Replay([a, b]).lotes == [Lot(10.0, 5.0), Lot(20.0, 5.0)]
    ensures Replay([a, b, c]) == State([], 5.0)
  {
    ReplayAppend([], a);
    assert [] + [a] == [a];
    ReplayAppend([a], b);
    assert [a] + [b] == [a, b];
    ReplayAppend([a, b], c);
    assert [a, b] + [c] == [a, b, c];
    RedeemBeyondLots();
  }

  /** One subscription of 100 units at 10 and nothing else: 100 units open, valued at 1000. */
  lemma SingleSubscriptionExample(a: Movements.Movement)
    requires IsSubscription(a) && a.cuotapartes == 100.0 && a.valor == Some(10.0)
    ensures Replay([a]) == State([Lot(100.0, 10.0)], 10.0)
    ensures SumUnits(Replay([a]).lotes) == 100.0 && Valuation(Replay([a])) == 1000.0
  {
    ReplayAppend([], a);
    assert [] + [a] == [a];
  }

  /** The `while` loop of a redemption: consume `faltante` units from the front lots. */
  method RedeemLots(lotes: seq<Lot>, faltante: real) returns (rest: seq<Lot>)
    ensures rest == Redeem(lotes, faltante)
  {
    rest := lotes;
    var left := faltante;
    while left > Tolerance && rest != []
      invariant Redeem(rest, left) == Redeem(lotes, faltante)
      decreases |rest|, if left > Tolerance then 1 else 0
    {
      var cuotas, valor := rest[0].cuotas, rest[0].valor;
      var toma := Min(cuotas, left);
      cuotas := cuotas - toma;
      left := left - toma;
      if cuotas <= Tolerance {
        rest := rest[1..];
      } else {
        rest := rest[0 := Lot(cuotas, valor)];
      }
    }
  }

  /** `_simulate_fifo`: the open units left and their value at the last known unit value. */
  method SimulateFifo(movements: seq<Movements.Movement>) returns (saldoCuotas: real, saldoValorizado: real)
    ensures saldoCuotas == SumUnits(Replay(movements).lotes)
    ensures saldoValorizado == Valuation(Replay(movements))
  {
    var lotes: seq<Lot> := [];
    var ultimoValor := 0.0;
    for i := 0 to |movements|
      invariant Replay(movements[..i]) == State(lotes, ultimoValor)
    {
      assert movements[..i + 1][..i] == movements[..i];
      var mov := movements[i];
      if mov.valor.Some? {
        ultimoValor := mov.valor.value;
      }
      if StartsWith(Upper(mov.concepto), "SUSCRIPCION") {
        lotes := lotes + [Lot(mov.cuotapartes, Movements.OrElse(mov.valor, ultimoValor))];
      } else if StartsWith(Upper(mov.concepto), "RESCATE") {
        lotes := RedeemLots(lotes, Abs(mov.cuotapartes));
      }
    }
    assert movements[..|movements|] == movements;
    saldoCuotas := SumUnits(lotes);
    saldoValorizado := saldoCuotas * ultimoValor;
  }
}
