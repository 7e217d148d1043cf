/**
 * The two record classes of ericlib.py and the `make` hooks of their
 * composite casters: `make(values)` builds `dict(zip(attnames, values))` and
 * calls the record's constructor with it as keyword arguments. `__str__`
 * renders a record as "<class name>: <title> (<kind> ID: <id>)".
 */
module EricLib {
  import opened Values
  import opened Binding

  /** A `Fighter` object: the two attributes `__init__` sets. */
  datatype Fighter = Fighter(fighterId: Value, title: Value)

  /** A `SpecialMove` object: the four attributes `__init__` sets. */
  datatype SpecialMove = SpecialMove(specialMoveId: Value, fighterId: Value, title: Value, damage: Value)

  /** The parameters of `Fighter.__init__` after `self`, in declaration order. */
  const FighterParams: seq<string> := ["fighter_id", "title"]

  /** The parameters of `SpecialMove.__init__` after `self`, in declaration order. */
  const SpecialMoveParams: seq<string> := ["special_move_id", "fighter_id", "title", "damage"]

  lemma ParamsDistinct()
    ensures Distinct(FighterParams) && Distinct(SpecialMoveParams)
    ensures Elems(FighterParams) == {"fighter_id", "title"}
    ensures Elems(SpecialMoveParams) == {"special_move_id", "fighter_id", "title", "damage"}
  {
  }

  // ---------------------------------------------------------------- Fighter

  /**
   * `Fighter(**kw)`: succeeds exactly when the keywords are `fighter_id` and
   * `title`, and then stores each keyword's value unchanged in the attribute
   * of that name; otherwise the `TypeError` of binding, and no object.
   */
  function NewFighter(kw: map<string, Value>): (r: Result<Fighter>)
    ensures r.Ok? <==> kw.Keys == {"fighter_id", "title"}
    ensures r.Ok? ==> r.value.fighterId == kw["fighter_id"] && r.value.title == kw["title"]
    ensures r.Err? ==> r.error == TypeError(kw.Keys - Elems(FighterParams), Elems(FighterParams) - kw.Keys)
  {
    ParamsDistinct();
    match Bind(FighterParams, kw)
    case Ok(args) => Ok(Fighter(args[0], args[1]))
    case Err(e) => Err(e)
  }

  /** `getattr(f, name)` for the attributes a `Fighter` has; `None` for any other name. */
  function FighterAttr(f: Fighter, name: string): (r: Option<Value>)
    ensures r.Some? <==> name in FighterParams
    ensures name == "fighter_id" ==> r == Some(f.fighterId)
    ensures name == "title" ==> r == Some(f.title)
  {
    if name == "fighter_id" then Some(f.fighterId)
    else if name == "title" then Some(f.title)
    else None
  }

  /** A constructed `Fighter` holds, under each keyword's name, that keyword's value. */
  lemma NewFighterAttr(kw: map<string, Value>, name: string)
    requires NewFighter(kw).Ok? && name in kw
    ensures FighterAttr(NewFighter(kw).value, name) == Some(kw[name])
  {
  }

  /**
   * `FighterFactory.make(values)` with the caster's attribute names: it
   * succeeds exactly when the names `zip` keeps are `fighter_id` and `title`.
   */
  function MakeFighter(attnames: seq<string>, values: seq<Value>): (r: Result<Fighter>)
    ensures r.Ok? <==> Elems(attnames[..Min(|attnames|, |values|)]) == Elems(FighterParams)
    ensures r.Err? ==> r.error == TypeError(
      Elems(attnames[..Min(|attnames|, |values|)]) - Elems(FighterParams),
      Elems(FighterParams) - Elems(attnames[..Min(|attnames|, |values|)]))
  {
    ParamsDistinct();
    NewFighter(ZipToDict(attnames, values))
  }

  /**
   * Positional fidelity: after a successful `make`, the attribute named
   * `attnames[i]` holds `values[i]`, unless a later pair that `zip` keeps
   * repeats the name (then, as in `dict`, the last one wins).
   */
  lemma MakeFighterPositional(attnames: seq<string>, values: seq<Value>, i: nat)
    requires MakeFighter(attnames, values).Ok?
    requires i < |attnames| && i < |values|
    requires forall j :: i < j < Min(|attnames|, |values|) ==> attnames[j] != attnames[i]
    ensures FighterAttr(MakeFighter(attnames, values).value, attnames[i]) == Some(values[i])
  {
    ZipToDictPositional(attnames, values, i);
    NewFighterAttr(ZipToDict(attnames, values), attnames[i]);
  }

  /**
   * Catalog attribute names are distinct; with them in any order, a values
   * tuple shorter than the names leaves the trailing names unbound, and
   * `make` fails naming exactly those as missing.
   */
  lemma MakeFighterShortFails(attnames: seq<string>, values: seq<Value>)
    requires Distinct(attnames) && Elems(attnames) == Elems(FighterParams)
    requires |values| < |attnames|
    ensures MakeFighter(attnames, values).Err?
    ensures MakeFighter(attnames, values).error == TypeError({}, Elems(attnames[|values|..]))
    ensures attnames[|values|] in MakeFighter(attnames, values).error.missing
  {
    SplitElems(attnames, |values|);
  }

  /** Extra trailing values beyond the attribute names are dropped by `zip`. */
  lemma MakeFighterIgnoresExtra(attnames: seq<string>, values: seq<Value>, extra: seq<Value>)
    requires |values| >= |attnames|
    ensures MakeFighter(attnames, values + extra) == MakeFighter(attnames, values)
  {
    ZipToDictDropsExtra(attnames, values, extra);
  }

  /** Permuting names and values together gives the same `Fighter`. */
  lemma MakeFighterPermutation(attnames: seq<string>, values: seq<Value>, p: seq<nat>)
    requires |attnames| == |values| && Distinct(attnames)
    requires IsPermutation(p, |attnames|)
    ensures MakeFighter(Permute(attnames, p), Permute(values, p)) == MakeFighter(attnames, values)
  {
    ZipToDictPermutation(attnames, values, p);
  }

  /** With the attribute names in declaration order, a pair becomes the fighter's two fields in order. */
  lemma MakeFighterInOrder(fighterId: Value, title: Value)
    ensures MakeFighter(FighterParams, [fighterId, title]) == Ok(Fighter(fighterId, title))
  {
    ParamsDistinct();
    ZipToDictDistinct(FighterParams, [fighterId, title], 0);
    ZipToDictDistinct(FighterParams, [fighterId, title], 1);
  }

  /**
   * `Fighter.__str__`: "Fighter: <title> (fighter ID: <fighter_id>)". The
   * ensures say where each piece sits: the class name and ": ", the printed
   * title, the fixed " (fighter ID: ", the printed ID, ")".
   */
  function FighterStr(f: Fighter): (s: string)
    ensures var t, d := ValueStr(f.title), ValueStr(f.fighterId);
      && |s| == 24 + |t| + |d|
      && s[..9] == "Fighter: " && s[9..9 + |t|] == t
      && s[9 + |t|..|s| - 1 - |d|] == " (fighter ID: "
      && s[|s| - 1 - |d|..] == d + ")"
  {
    "Fighter" + ": " + ValueStr(f.title) + " (fighter ID: " + ValueStr(f.fighterId) + ")"
  }

  /** Two fighters with the same title render alike only if their integer IDs are equal. */
  lemma FighterStrDistinguishesIds(title: Value, a: int, b: int)
    requires FighterStr(Fighter(IntVal(a), title)) == FighterStr(Fighter(IntVal(b), title))
    ensures a == b
  {
    var s, t := FighterStr(Fighter(IntVal(a), title)), FighterStr(Fighter(IntVal(b), title));
    assert |IntToDecimal(a)| == |IntToDecimal(b)|;
    var k := |s| - 1 - |IntToDecimal(a)|;
    assert s[k..] == IntToDecimal(a) + ")" && t[k..] == IntToDecimal(b) + ")";
    assert IntToDecimal(a) == (IntToDecimal(a) + ")")[..|IntToDecimal(a)|];
    assert IntToDecimal(b) == (IntToDecimal(b) + ")")[..|IntToDecimal(b)|];
    IntToDecimalInjective(a, b);
  }

  /** Two fighters with the same ID render alike only if their titles print alike. */
  lemma FighterStrDistinguishesTitles(fighterId: Value, a: Value, b: Value)
    requires FighterStr(Fighter(fighterId, a)) == FighterStr(Fighter(fighterId, b))
    ensures ValueStr(a) == ValueStr(b)
  {
    var s := FighterStr(Fighter(fighterId, a));
    assert |ValueStr(a)| == |ValueStr(b)|;
    assert ValueStr(a) == s[9..9 + |ValueStr(a)|];
  }

  /** The repository's first seed fighter, decoded from `(1, 'Liu Kang')`. */
  lemma LiuKangDecoded()
    ensures MakeFighter(FighterParams, [IntVal(1), StrVal("Liu Kang")]) == Ok(Fighter(IntVal(1), StrVal("Liu Kang")))
  {
    MakeFighterInOrder(IntVal(1), StrVal("Liu Kang"));
  }

  /** ... and rendered. */
  lemma LiuKangRendered()
    ensures FighterStr(Fighter(IntVal(1), StrVal("Liu Kang"))) == "Fighter: Liu Kang (fighter ID: 1)"
  {
    assert DigitChar(1) == '1';
  }

  // ------------------------------------------------------------ SpecialMove

  /**
   * `SpecialMove(**kw)`: succeeds exactly when the keywords are the four
   * parameter names, and then stores each value unchanged in the attribute
   * of that name; otherwise the `TypeError` of binding, and no object.
   */
  function NewSpecialMove(kw: map<string, Value>): (r: Result<SpecialMove>)
    ensures r.Ok? <==> kw.Keys == {"special_move_id", "fighter_id", "title", "damage"}
    ensures r.Ok? ==> && r.value.specialMoveId == kw["special_move_id"]
                      && r.value.fighterId == kw["fighter_id"]
                      && r.value.title == kw["title"]
                      && r.value.damage == kw["damage"]
    ensures r.Err? ==> r.error == TypeError(kw.Keys - Elems(SpecialMoveParams), Elems(SpecialMoveParams) - kw.Keys)
  {
    ParamsDistinct();
    match Bind(SpecialMoveParams, kw)
    case Ok(args) => Ok(SpecialMove(args[0], args[1], args[2], args[3]))
    case Err(e) => Err(e)
  }

  /** `getattr(m, name)` for the attributes a `SpecialMove` has; `None` for any other name. */
  function SpecialMoveAttr(m: SpecialMove, name: string): (r: Option<Value>)
    ensures r.Some? <==> name in SpecialMoveParams
    ensures name == "special_move_id" ==> r == Some(m.specialMoveId)
    ensures name == "fighter_id" ==> r == Some(m.fighterId)
    ensures name == "title" ==> r == Some(m.title)
    ensures name == "damage" ==> r == Some(m.damage)
  {
    if name == "special_move_id" then Some(m.specialMoveId)
    else if name == "fighter_id" then Some(m.fighterId)
    else if name == "title" then Some(m.title)
    else if name == "damage" then Some(m.damage)
    else None
  }

  /** A constructed `SpecialMove` holds, under each keyword's name, that keyword's value. */
  lemma NewSpecialMoveAttr(kw: map<string, Value>, name: string)
    requires NewSpecialMove(kw).Ok? && name in kw
    ensures SpecialMoveAttr(NewSpecialMove(kw).value, name) == Some(kw[name])
  {
    var m := NewSpecialMove(kw).value;
    assert kw.Keys == {"special_move_id", "fighter_id", "title", "damage"};
    if name == "special_move_id" {
      assert SpecialMoveAttr(m, name) == Some(m.specialMoveId);
    } else if name == "fighter_id" {
      assert SpecialMoveAttr(m, name) == Some(m.fighterId);
    } else if name == "title" {
      assert SpecialMoveAttr(m, name) == Some(m.title);
    } else {
      assert name == "damage";
    }
  }

  /**
   * `SpecialMoveFactory.make(values)` with the caster's attribute names: it
   * succeeds exactly when the names `zip` keeps are the four parameters.
   */
  function MakeSpecialMove(attnames: seq<string>, values: seq<Value>): (r: Result<SpecialMove>)
    ensures r.Ok? <==> Elems(attnames[..Min(|attnames|, |values|)]) == Elems(SpecialMoveParams)
    ensures r.Err? ==> r.error == TypeError(
      Elems(attnames[..Min(|attnames|, |values|)]) - Elems(SpecialMoveParams),
      Elems(SpecialMoveParams) - Elems(attnames[..Min(|attnames|, |values|)]))
  {
    ParamsDistinct();
    NewSpecialMove(ZipToDict(attnames, values))
  }

  /** Positional fidelity for `SpecialMoveFactory.make`. */
  lemma MakeSpecialMovePositional(attnames: seq<string>, values: seq<Value>, i: nat)
    requires MakeSpecialMove(attnames, values).Ok?
    requires i < |attnames| && i < |values|
    requires forall j :: i < j < Min(|attnames|, |values|) ==> attnames[j] != attnames[i]
    ensures SpecialMoveAttr(MakeSpecialMove(attnames, values).value, attnames[i]) == Some(values[i])
  {
    ZipToDictPositional(attnames, values, i);
    NewSpecialMoveAttr(ZipToDict(attnames, values), attnames[i]);
  }

  /** A values tuple shorter than the (distinct) attribute names fails, naming the unbound ones. */
  lemma MakeSpecialMoveShortFails(attnames: seq<string>, values: seq<Value>)
    requires Distinct(attnames) && Elems(attnames) == Elems(SpecialMoveParams)
    requires |values| < |attnames|
    ensures MakeSpecialMove(attnames, values).Err?
    ensures MakeSpecialMove(attnames, values).error == TypeError({}, Elems(attnames[|values|..]))
    ensures attnames[|values|] in MakeSpecialMove(attnames, values).error.missing
  {
    SplitElems(attnames, |values|);
  }

  /** Extra trailing values beyond the attribute names are dropped by `zip`. */
  lemma MakeSpecialMoveIgnoresExtra(attnames: seq<string>, values: seq<Value>, extra: seq<Value>)
    requires |values| >= |attnames|
    ensures MakeSpecialMove(attnames, values + extra) == MakeSpecialMove(attnames, values)
  {
    ZipToDictDropsExtra(attnames, values, extra);
  }

  /** Permuting names and values together gives the same `SpecialMove`. */
  lemma MakeSpecialMovePermutation(attnames: seq<string>, values: seq<Value>, p: seq<nat>)
    requires |attnames| == |values| && Distinct(attnames)
    requires IsPermutation(p, |attnames|)
    ensures MakeSpecialMove(Permute(attnames, p), Permute(values, p)) == MakeSpecialMove(attnames, values)
  {
    ZipToDictPermutation(attnames, values, p);
  }

  /** With the attribute names in declaration order, a 4-tuple becomes the move's four fields in order. */
  lemma MakeSpecialMoveInOrder(specialMoveId: Value, fighterId: Value, title: Value, damage: Value)
    ensures MakeSpecialMove(SpecialMoveParams, [specialMoveId, fighterId, title, damage])
         == Ok(SpecialMove(specialMoveId, fighterId, title, damage))
  {
    var vs := [specialMoveId, fighterId, title, damage];
    ParamsDistinct();
    ZipToDictDistinct(SpecialMoveParams, vs, 0);
    ZipToDictDistinct(SpecialMoveParams, vs, 1);
    ZipToDictDistinct(SpecialMoveParams, vs, 2);
    ZipToDictDistinct(SpecialMoveParams, vs, 3);
  }

  /**
   * `SpecialMove.__str__`: "SpecialMove: <title> (special move ID: <special_move_id>)".
   * The ensures say where each piece sits: the class name and ": ", the
   * printed title, the fixed " (special move ID: ", the printed ID, ")".
   */
  function SpecialMoveStr(m: SpecialMove): (s: string)
    ensures var t, d := ValueStr(m.title), ValueStr(m.specialMoveId);
      && |s| == 33 + |t| + |d|
      && s[..13] == "SpecialMove: " && s[13..13 + |t|] == t
      && s[13 + |t|..|s| - 1 - |d|] == " (special move ID: "
      && s[|s| - 1 - |d|..] == d + ")"
  {
    "SpecialMove" + ": " + ValueStr(m.title) + " (special move ID: " + ValueStr(m.specialMoveId) + ")"
  }

  /** `fighter_id` and `damage` do not take part in the rendering. */
  lemma SpecialMoveStrIgnoresFighterAndDamage(m: SpecialMove, fighterId: Value, damage: Value)
    ensures SpecialMoveStr(m.(fighterId := fighterId, damage := damage)) == SpecialMoveStr(m)
  {
  }

  /** Two moves with the same title render alike only if their integer IDs are equal. */
  lemma SpecialMoveStrDistinguishesIds(m: SpecialMove, a: int, b: int)
    requires SpecialMoveStr(m.(specialMoveId := IntVal(a))) == SpecialMoveStr(m.(specialMoveId := IntVal(b)))
    ensures a == b
  {
    var s, t := SpecialMoveStr(m.(specialMoveId := IntVal(a))), SpecialMoveStr(m.(specialMoveId := IntVal(b)));
    assert |IntToDecimal(a)| == |IntToDecimal(b)|;
    var k := |s| - 1 - |IntToDecimal(a)|;
    assert s[k..] == IntToDecimal(a) + ")" && t[k..] == IntToDecimal(b) + ")";
    assert IntToDecimal(a) == (IntToDecimal(a) + ")")[..|IntToDecimal(a)|];
    assert IntToDecimal(b) == (IntToDecimal(b) + ")")[..|IntToDecimal(b)|];
    IntToDecimalInjective(a, b);
  }

  /** The first seed move of Liu Kang, decoded from `(1, 1, 'Fire blast', 20)`. */
  lemma FireBlastDecoded()
    ensures MakeSpecialMove(SpecialMoveParams, [IntVal(1), IntVal(1), StrVal("Fire blast"), IntVal(20)])
         == Ok(SpecialMove(IntVal(1), IntVal(1), StrVal("Fire blast"), IntVal(20)))
  {
    MakeSpecialMoveInOrder(IntVal(1), IntVal(1), StrVal("Fire blast"), IntVal(20));
  }

  /** ... and rendered: neither the fighter ID nor the damage appears. */
  lemma FireBlastRendered()
    ensures SpecialMoveStr(SpecialMove(IntVal(1), IntVal(1), StrVal("Fire blast"), IntVal(20)))
         == "SpecialMove: Fire blast (special move ID: 1)"
  {
    assert DigitChar(1) == '1';
  }

  // ---------------------------------------------------------------- helpers

  /** With distinct names, the names past position n are exactly those not among the first n. */
  lemma SplitElems(s: seq<string>, n: nat)
    requires Distinct(s) && n < |s|
    ensures Elems(s) - Elems(s[..n]) == Elems(s[n..])
    ensures Elems(s[..n]) <= Elems(s)
    ensures s[n] in Elems(s[n..])
  {
    assert s[n..][0] == s[n];
    forall x | x in Elems(s[n..]) ensures x in Elems(s) && x !in Elems(s[..n]) {
      var j :| 0 <= j < |s[n..]| && s[n..][j] == x;
      assert s[n + j] == x;
      forall i | 0 <= i < n ensures s[..n][i] != x {
        assert s[i] != s[n + j];
      }
    }
    forall x | x in Elems(s) && x !in Elems(s[..n]) ensures x in Elems(s[n..]) {
      var i :| 0 <= i < |s| && s[i] == x;
      if i >= n {
        assert s[n..][i - n] == x;
      }
    }
  }
}
