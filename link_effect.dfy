/**
 * The timed effects of QLink (QLink/game/Effect.hpp): five effect types,
 * each with a duration in seconds and a field saying whom it reaches, and the
 * EffectSet that keeps one uint32_t counter of seconds left per type.
 *
 * Game and Player hold their EffectSet by value, so it is a datatype here.
 * The members of EffectSet that run effect hooks (Insert and Update) change
 * the game, and are methods of LinkGame.Game; their effect on the counters is
 * given here.
 */
module LinkEffect {
  import opened StdTypes
  import opened LinkGrid

  /** EffectType, in its declaration order. */
  datatype EffectType = Plus1S | Shuffle | Hint | Freeze | Dizzy

  /** EffectField: the game's own set, the picking player's set, or every other player's set. */
  datatype EffectField = Global | Local | Exclude

  /** EffectType::__EFFECT_NUM__. */
  const EFFECT_NUM: nat := 5

  /** static_cast<int>(type). */
  function Ordinal(t: EffectType): (i: nat)
    ensures i < EFFECT_NUM
  {
    match t
    case Plus1S => 0
    case Shuffle => 1
    case Hint => 2
    case Freeze => 3
    case Dizzy => 4
  }

  /** static_cast<EffectType>(i). */
  function TypeAt(i: nat): (t: EffectType)
    requires i < EFFECT_NUM
    ensures Ordinal(t) == i
  {
    if i == 0 then Plus1S else if i == 1 then Shuffle else if i == 2 then Hint
    else if i == 3 then Freeze else Dizzy
  }

  /** The two casts are inverse. */
  lemma TypeAtOrdinal(t: EffectType)
    ensures TypeAt(Ordinal(t)) == t
  {
  }

  /** Effect<Type>::kDuration: the seconds one pick-up adds. */
  function Duration(t: EffectType): U32 {
    match t
    case Plus1S => 0
    case Shuffle => 0
    case Hint => 10
    case Freeze => 3
    case Dizzy => 10
  }

  /** Effect<Type>::kField. */
  function Field(t: EffectType): EffectField {
    match t
    case Plus1S => Global
    case Shuffle => Global
    case Hint => Global
    case Freeze => Exclude
    case Dizzy => Exclude
  }

  /** The effects that last: Hint, Freeze and Dizzy. The other two act once, when picked. */
  lemma TimedTypes(t: EffectType)
    ensures Duration(t) > 0 <==> t in {Hint, Freeze, Dizzy}
    ensures Field(t) == Exclude <==> t in {Freeze, Dizzy}
  {
  }

  /** EffectBlock: where the effect block lies and which effect it gives. */
  datatype EffectBlock = EffectBlock(coord: Coord, kind: EffectType)

  /** std::array<uint32_t, kEffectNum>. */
  type Counters = s: seq<U32> | |s| == EFFECT_NUM witness [0, 0, 0, 0, 0]

  /** EffectSet: m_effects, the seconds left of each type, indexed by Ordinal. */
  datatype EffectSet = EffectSet(counts: Counters)

  /** The seconds left of type t. */
  function Remaining(e: EffectSet, t: EffectType): U32
  {
    e.counts[Ordinal(t)]
  }

  /** EffectSet::Clear: no time left of any type. */
  function Cleared(): (e: EffectSet)
    ensures forall t :: Remaining(e, t) == 0
  {
    EffectSet([0, 0, 0, 0, 0])
  }

  /** The counter change of EffectSet::Insert<t>: Duration(t) more seconds of t, in uint32_t arithmetic. */
  function Inserted(e: EffectSet, t: EffectType): (r: EffectSet)
    ensures Remaining(r, t) == (Remaining(e, t) + Duration(t)) % UINT32_MOD
    ensures forall u :: u != t ==> Remaining(r, u) == Remaining(e, u)
  {
    EffectSet(e.counts[Ordinal(t) := (e.counts[Ordinal(t)] + Duration(t)) % UINT32_MOD])
  }

  /** EffectSet::Update visits the timed types that have time left. */
  predicate Running(e: EffectSet, t: EffectType)
  {
    Duration(t) > 0 && Remaining(e, t) != 0
  }

  /** The counter change of EffectSet::Update for type t: one second less when a second has passed. */
  function Ticked(e: EffectSet, t: EffectType, nextSecond: bool): (r: EffectSet)
  {
    if Running(e, t) && nextSecond then EffectSet(e.counts[Ordinal(t) := e.counts[Ordinal(t)] - 1]) else e
  }

  /** Updating one type only touches that type's counter, takes at most one second off, and nothing without a second. */
  lemma TickedRemaining(e: EffectSet, t: EffectType, nextSecond: bool, u: EffectType)
    ensures Remaining(Ticked(e, t, nextSecond), u) ==
      if u == t && Running(e, t) && nextSecond then Remaining(e, u) - 1 else Remaining(e, u)
  {
  }

  /** The seconds left after n passed seconds, starting from e, with no pick-up in between. */
  function AfterSeconds(e: EffectSet, t: EffectType, n: nat): (r: EffectSet)
    decreases n
  {
    if n == 0 then e else AfterSeconds(Ticked(e, t, true), t, n - 1)
  }

  /** A timed effect runs out after exactly as many seconds as it has left; an untimed one keeps its counter. */
  lemma {:induction false} AfterSecondsRemaining(e: EffectSet, t: EffectType, n: nat)
    ensures Remaining(AfterSeconds(e, t, n), t) ==
      if Duration(t) == 0 then Remaining(e, t) else if n >= Remaining(e, t) then 0 else Remaining(e, t) - n
    decreases n
  {
    if n > 0 {
      TickedRemaining(e, t, true, t);
      AfterSecondsRemaining(Ticked(e, t, true), t, n - 1);
    }
  }

  /** So an effect picked up with no time left runs for its full duration. */
  lemma FreshEffectLasts(e: EffectSet, t: EffectType, n: nat)
    requires Remaining(e, t) == 0 && Duration(t) > 0
    ensures Remaining(AfterSeconds(Inserted(e, t), t, n), t) != 0 <==> n < Duration(t)
  {
    AfterSecondsRemaining(Inserted(e, t), t, n);
  }

  /** What ForEach hands its callback, from type index k on: each timed type with time left, with that time. */
  function ActiveFrom(e: EffectSet, k: nat): seq<(EffectType, U32)>
    decreases EFFECT_NUM - k
  {
    if k >= EFFECT_NUM then []
    else if Running(e, TypeAt(k)) then [(TypeAt(k), Remaining(e, TypeAt(k)))] + ActiveFrom(e, k + 1)
    else ActiveFrom(e, k + 1)
  }

  function Active(e: EffectSet): seq<(EffectType, U32)>
  {
    ActiveFrom(e, 0)
  }

  /** The visited pairs are the running types, each with its time left, in type order. */
  lemma {:induction false} ActiveFromMembers(e: EffectSet, k: nat)
    ensures forall t, n :: (t, n) in ActiveFrom(e, k) <==> k <= Ordinal(t) && Running(e, t) && n == Remaining(e, t)
    ensures forall i, j :: 0 <= i < j < |ActiveFrom(e, k)| ==> Ordinal(ActiveFrom(e, k)[i].0) < Ordinal(ActiveFrom(e, k)[j].0)
    ensures |ActiveFrom(e, k)| <= if k <= 2 then 3 else if k < EFFECT_NUM then EFFECT_NUM - k else 0
    decreases EFFECT_NUM - k
  {
    if k < EFFECT_NUM {
      ActiveFromMembers(e, k + 1);
      forall t, n ensures (t, n) in ActiveFrom(e, k) <==> k <= Ordinal(t) && Running(e, t) && n == Remaining(e, t) {
        if Ordinal(t) == k {
          TypeAtOrdinal(t);
        }
      }
    }
  }

  lemma ActiveMembers(e: EffectSet)
    ensures forall t, n :: (t, n) in Active(e) <==> Running(e, t) && n == Remaining(e, t)
    ensures forall i, j :: 0 <= i < j < |Active(e)| ==> Ordinal(Active(e)[i].0) < Ordinal(Active(e)[j].0)
    ensures |Active(e)| <= 3
  {
    ActiveFromMembers(e, 0);
  }

  /** A cleared set has nothing running. */
  lemma ClearedInactive()
    ensures Active(Cleared()) == []
  {
    ActiveMembers(Cleared());
  }

  /**
   * EffectSet::ForEach, with the callback's calls returned as a list: each
   * timed type with time left, with that time, in type order.
   */
  method ForEach(e: EffectSet) returns (calls: seq<(EffectType, U32)>)
    ensures calls == Active(e)
  {
    calls := [];
    for k := 0 to EFFECT_NUM
      invariant calls + ActiveFrom(e, k) == Active(e)
    {
      var t := TypeAt(k);
      if Duration(t) > 0 {
        var time := e.counts[k];
        if time != 0 {
          calls := calls + [(t, time)];
        }
      }
    }
  }

  /** EffectSet::GetCount: how many timed types have time left; at most three. */
  method GetCount(e: EffectSet) returns (count: U32)
    ensures count == |Active(e)| && count <= 3
  {
    ActiveMembers(e);
    count := 0;
    for k := 0 to EFFECT_NUM
      invariant count + |ActiveFrom(e, k)| == |Active(e)|
    {
      var t := TypeAt(k);
      if Duration(t) > 0 && e.counts[k] != 0 {
        count := count + 1;
      }
    }
  }
}
