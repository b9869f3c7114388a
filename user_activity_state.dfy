/**
 * The health-services `UserActivityState` enum: four constants with integer
 * ids, a lookup from an id back to a constant, and conversions to and from
 * the generated protocol-buffer enum.
 */
module UserActivityStates {
  import opened Options

  /** The constants, in declaration order. */
  datatype UserActivityState =
    | UserActivityUnknown
    | UserActivityExercise
    | UserActivityPassive
    | UserActivityAsleep

  /** The id each constant is declared with: its position in declaration order. */
  function Id(s: UserActivityState): (r: int)
    ensures 0 <= r < |Values| && Values[r] == s
  {
    match s
    case UserActivityUnknown => 0
    case UserActivityExercise => 1
    case UserActivityPassive => 2
    case UserActivityAsleep => 3
  }

  /** `values()`: every constant, in declaration order. */
  const Values: seq<UserActivityState> :=
    [UserActivityUnknown, UserActivityExercise, UserActivityPassive, UserActivityAsleep]

  /** Position of the first element of `xs` that satisfies `p`, if any. */
  function IndexOfFirst<T>(xs: seq<T>, p: T -> bool): (r: Option<nat>)
    ensures r.Some? ==> r.value < |xs| && p(xs[r.value])
    ensures r.Some? ==> forall j :: 0 <= j < r.value ==> !p(xs[j])
    ensures r.None? ==> forall j :: 0 <= j < |xs| ==> !p(xs[j])
  {
    if xs == [] then None
    else if p(xs[0]) then Some(0)
    else match IndexOfFirst(xs[1..], p)
      case None => None
      case Some(k) => Some(k + 1)
  }

  /** Kotlin's `xs.firstOrNull { p(it) }`. */
  function FirstOrNull<T>(xs: seq<T>, p: T -> bool): (r: Option<T>)
    ensures r.Some? ==> r.value in xs && p(r.value)
    ensures r.Some? ==> exists i :: 0 <= i < |xs| && xs[i] == r.value && forall j :: 0 <= j < i ==> !p(xs[j])
    ensures r.None? <==> forall j :: 0 <= j < |xs| ==> !p(xs[j])
  {
    match IndexOfFirst(xs, p)
    case None => None
    case Some(i) => Some(xs[i])
  }

  /** `fromId`: the first declared constant whose id is `id`, or null. */
  function FromId(id: int): (r: Option<UserActivityState>)
    ensures r.Some? ==> Id(r.value) == id
    ensures r.None? <==> !(0 <= id <= 3)
  {
    FirstOrNull(Values, (s: UserActivityState) => Id(s) == id)
  }

  /** No two constants share an id. */
  lemma IdsDistinct(s: UserActivityState, t: UserActivityState)
    ensures Id(s) == Id(t) ==> s == t
  {
  }

  /** Looking up a constant's own id gives that constant back. */
  lemma FromIdRoundTrip(s: UserActivityState)
    ensures FromId(Id(s)) == Some(s)
  {
    IdsDistinct(s, FromId(Id(s)).value);
  }

  /** `fromId(n)` names `s` exactly when `s` carries the id `n`. */
  lemma FromIdUnique(n: int, s: UserActivityState)
    ensures FromId(n) == Some(s) <==> Id(s) == n
  {
    if Id(s) == n {
      FromIdRoundTrip(s);
    }
  }

  /** A value of the generated proto enum, known by its wire number. */
  datatype UserActivityStateProto = UserActivityStateProto(number: int)

  /**
   * The generated proto enum: its declared values and its
   * USER_ACTIVITY_STATE_UNKNOWN constant.
   */
  datatype ProtoEnum = ProtoEnum(declared: seq<UserActivityStateProto>, unknown: UserActivityStateProto)

  /** The generated `forNumber`: the declared value with that number, or null. */
  function ForNumber(e: ProtoEnum, n: int): (r: Option<UserActivityStateProto>)
    ensures r.Some? ==> r.value in e.declared && r.value.number == n
    ensures r.Some? ==> exists i :: 0 <= i < |e.declared| && e.declared[i] == r.value
                                    && forall j :: 0 <= j < i ==> e.declared[j].number != n
    ensures r.None? <==> forall j :: 0 <= j < |e.declared| ==> e.declared[j].number != n
  {
    FirstOrNull(e.declared, (v: UserActivityStateProto) => v.number == n)
  }

  /** `toProto`: the proto value with this state's id, or the proto UNKNOWN. */
  function ToProto(e: ProtoEnum, s: UserActivityState): (r: UserActivityStateProto)
    ensures r.number == Id(s) || r == e.unknown
    ensures (exists j :: 0 <= j < |e.declared| && e.declared[j].number == Id(s)) ==> r.number == Id(s)
    ensures (forall j :: 0 <= j < |e.declared| ==> e.declared[j].number != Id(s)) ==> r == e.unknown
  {
    ForNumber(e, Id(s)).GetOr(e.unknown)
  }

  /** `fromProto`: the state with the proto's number, or USER_ACTIVITY_UNKNOWN. */
  function FromProto(p: UserActivityStateProto): (r: UserActivityState)
    ensures 0 <= p.number <= 3 ==> Id(r) == p.number
    ensures !(0 <= p.number <= 3) ==> r == UserActivityUnknown
  {
    FromId(p.number).GetOr(UserActivityUnknown)
  }

  /** Every proto value maps to some state; only in-range numbers to a state other than UNKNOWN. */
  lemma FromProtoTotal(p: UserActivityStateProto)
    ensures FromProto(p) != UserActivityUnknown ==> FromId(p.number) == Some(FromProto(p))
  {
  }

  /** When the proto enum declares this state's id, converting there and back is the identity. */
  lemma ProtoRoundTrip(e: ProtoEnum, s: UserActivityState)
    requires exists j :: 0 <= j < |e.declared| && e.declared[j].number == Id(s)
    ensures FromProto(ToProto(e, s)) == s
  {
    FromIdRoundTrip(s);
  }

  /**
   * When the proto enum lacks this state's id, `toProto` falls back to the
   * proto UNKNOWN, which reads back as USER_ACTIVITY_UNKNOWN if its number is 0.
   */
  lemma ProtoFallback(e: ProtoEnum, s: UserActivityState)
    requires forall j :: 0 <= j < |e.declared| ==> e.declared[j].number != Id(s)
    requires e.unknown.number == 0
    ensures ToProto(e, s) == e.unknown
    ensures FromProto(ToProto(e, s)) == UserActivityUnknown
  {
  }

  /**
   * A declared proto value with an in-range number survives the trip through
   * the state enum.
   */
  lemma StateRoundTrip(e: ProtoEnum, p: UserActivityStateProto)
    requires p in e.declared && 0 <= p.number <= 3
    ensures ToProto(e, FromProto(p)) == p
  {
    var r := ToProto(e, FromProto(p));
    assert r.number == p.number;
  }
}
