/** The two players' key bindings, `keyCodeOpHashMap1` and `keyCodeOpHashMap2`. */
module Controls {
  import opened Wrappers
  import opened TankPose

  /** The keys the tables bind; `Other` stands for every other key. */
  datatype KeyCode = Up | Down | Left | Right | Period | W | A | S | D | V | Other

  datatype Player = One | Two

  /** Arrow keys and `.` for player one. */
  const PlayerOneKeys: map<KeyCode, Op> := map[
    KeyCode.Up := Op.Forward,
    KeyCode.Right := Op.Right,
    KeyCode.Down := Op.Reverse,
    KeyCode.Left := Op.Left,
    KeyCode.Period := Op.Fire]

  /** `W`, `A`, `S`, `D` and `V` for player two. */
  const PlayerTwoKeys: map<KeyCode, Op> := map[
    KeyCode.W := Op.Forward,
    KeyCode.D := Op.Right,
    KeyCode.S := Op.Reverse,
    KeyCode.A := Op.Left,
    KeyCode.V := Op.Fire]

  const AllOps: set<Op> := {Op.Forward, Op.Right, Op.Left, Op.Reverse, Op.Fire}

  function Table(p: Player): map<KeyCode, Op>
  {
    match p
    case One => PlayerOneKeys
    case Two => PlayerTwoKeys
  }

  /** The control a table binds to a key, or `None`. */
  function Lookup(p: Player, key: KeyCode): (r: Option<Op>)
    ensures r.Some? <==> key in Table(p)
  {
    if key in Table(p) then Some(Table(p)[key]) else None
  }

  /** The key a player presses for a control, read off the bindings above. */
  function KeyFor(p: Player, op: Op): (k: KeyCode)
    ensures Lookup(p, k) == Some(op)
  {
    match (p, op)
    case (One, Forward) => KeyCode.Up
    case (One, Right) => KeyCode.Right
    case (One, Reverse) => KeyCode.Down
    case (One, Left) => KeyCode.Left
    case (One, Fire) => KeyCode.Period
    case (Two, Forward) => KeyCode.W
    case (Two, Right) => KeyCode.D
    case (Two, Reverse) => KeyCode.S
    case (Two, Left) => KeyCode.A
    case (Two, Fire) => KeyCode.V
  }

  /** The keys a table binds. */
  lemma TableKeys(p: Player)
    ensures p == One ==> Table(p).Keys == {KeyCode.Up, KeyCode.Right, KeyCode.Down, KeyCode.Left, KeyCode.Period}
    ensures p == Two ==> Table(p).Keys == {KeyCode.W, KeyCode.D, KeyCode.S, KeyCode.A, KeyCode.V}
    ensures |Table(p)| == 5
  {
  }

  /** `KeyFor` inverts each table: the key bound to a control is the key `KeyFor` names. */
  lemma KeyForInvertsTable(p: Player, k: KeyCode)
    requires k in Table(p)
    ensures KeyFor(p, Table(p)[k]) == k
  {
    TableKeys(p);
  }

  /** Each table reaches every control. */
  lemma TableCoversOps(p: Player)
    ensures Table(p).Values == AllOps
  {
    forall op | op in AllOps
      ensures op in Table(p).Values
    {
      assert KeyFor(p, op) in Table(p);
    }
  }

  /** Each table binds exactly five keys, one per control, so it is a bijection onto the
      controls. */
  lemma TableIsBijection(p: Player)
    ensures |Table(p)| == 5
    ensures Table(p).Values == AllOps
    ensures forall k1, k2 :: k1 in Table(p) && k2 in Table(p) && Table(p)[k1] == Table(p)[k2] ==> k1 == k2
  {
    TableKeys(p);
    TableCoversOps(p);
    forall k1, k2 | k1 in Table(p) && k2 in Table(p) && Table(p)[k1] == Table(p)[k2]
      ensures k1 == k2
    {
      KeyForInvertsTable(p, k1);
      KeyForInvertsTable(p, k2);
    }
  }

  /** No key is bound for both players, so a key press reaches at most one tank. */
  lemma TablesShareNoKey(key: KeyCode)
    ensures Lookup(One, key).None? || Lookup(Two, key).None?
  {
  }

  /** Keys outside the ten bound ones do nothing. */
  lemma OtherKeysUnbound(p: Player)
    ensures Lookup(p, KeyCode.Other) == None
  {
  }
}
