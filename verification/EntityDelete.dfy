/**
 Cascade delete: exactly when it undoes a store, and what it says about it.

 The flag of a delete is true if every row it was asked to remove was there; optional children are not asked about.
 */
module EntityDelete {
  import opened Pointers
  import opened EntityTree

  // ---- deleting -----------------------------------------------------------------------------------------------

  function RemoveKeys(keys: set<seq<nat>>, pks: seq<seq<nat>>): (set<seq<nat>>, bool) {
    if pks == [] then (keys, true)
    else
      var m := |pks| - 1;
      var (rest, all) := RemoveKeys(keys, pks[..m]);
      (rest - {pks[m]}, all && pks[m] in rest)
  }

  function RemoveRows(rows: map<seq<nat>, int>, pks: seq<seq<nat>>): (map<seq<nat>, int>, bool) {
    if pks == [] then (rows, true)
    else
      var m := |pks| - 1;
      var (rest, all) := RemoveRows(rows, pks[..m]);
      (rest - {pks[m]}, all && pks[m] in rest)
  }

  function KidKeys(keys: set<seq<nat>>, pk: seq<nat>, width: nat): seq<seq<nat>> {
    if pk == [] then [] else ChildKeys(keys, pk, width)
  }

  /** The pointers of all children of the given entities, entity after entity. */
  function ChildPks(keys: set<seq<nat>>, pks: seq<seq<nat>>, width: nat): seq<seq<nat>> {
    if pks == [] then []
    else
      var m := |pks| - 1;
      ChildPks(keys, pks[..m], width) + KidKeys(keys, pks[m], width)
  }

  /** The generated `delete_many`: the keys, then field after field, each for all pointers. */
  function DeleteAll(t: Tables, pks: seq<seq<nat>>): (Tables, bool)
    decreases t, 1, 0
  {
    var (keys, gone) := RemoveKeys(t.keys, pks);
    var (cols, all) := DeleteFields(t, pks, |t.cols|);
    (Tables(keys, cols), gone && all)
  }

  function DeleteFields(t: Tables, pks: seq<seq<nat>>, m: nat): (r: (seq<FieldTable>, bool))
    requires m <= |t.cols|
    ensures |r.0| == m
    decreases t, 0, m
  {
    if m == 0 then ([], true)
    else
      var (cols, all) := DeleteFields(t, pks, m - 1);
      var (c, gone) := DeleteField(t.cols[m - 1], pks);
      (cols + [c], all && gone)
  }

  function DeleteField(c: FieldTable, pks: seq<seq<nat>>): (FieldTable, bool)
    decreases c, 0, 0
  {
    match c
    case ColT(rows) => var (rest, gone) := RemoveRows(rows, pks); (ColT(rest), gone)
    case OneT(child) => var (rest, gone) := DeleteAll(child, pks); (OneT(rest), gone)
    case OptT(child) => (OptT(DeleteAll(child, pks).0), true)
    case ManyT(width, child) =>
      var (rest, gone) := DeleteAll(child, ChildPks(child.keys, pks, width)); (ManyT(width, rest), gone)
  }

  /** The generated `delete_many`, which collects whether each row it was asked to remove was there. */
  method DeleteMany(t: Tables, pks: seq<seq<nat>>) returns (u: Tables, removed: bool)
    ensures (u, removed) == DeleteAll(t, pks)
    ensures ApartPks(pks) ==> Without(t, u, SetOf(pks)) && (removed <==> AllThere(t, SetOf(pks)))
    decreases t
  {
    var flags: seq<bool> := [];
    var keys := t.keys;
    for k := 0 to |pks|
      invariant (keys, false !in flags) == RemoveKeys(t.keys, pks[..k])
    {
      assert pks[..k + 1][..k] == pks[..k];
      flags := flags + [pks[k] in keys];
      keys := keys - {pks[k]};
    }
    assert pks[..|pks|] == pks;
    ghost var gone := false !in flags;
    var cols: seq<FieldTable> := [];
    for i := 0 to |t.cols|
      invariant cols == DeleteFields(t, pks, i).0
      invariant false !in flags <==> gone && DeleteFields(t, pks, i).1
    {
      var rest, pushed := DeleteManyStatement(t.cols[i], pks);
      cols := cols + [rest];
      flags := flags + pushed;
    }
    u := Tables(keys, cols);
    removed := false !in flags;
    if ApartPks(pks) { DeletesExactly(t, pks); }
  }

  /** The statement that is generated for one field and many pointers, with the flags it pushes. */
  method DeleteManyStatement(c: FieldTable, pks: seq<seq<nat>>) returns (rest: FieldTable, pushed: seq<bool>)
    ensures rest == DeleteField(c, pks).0 && (false !in pushed <==> DeleteField(c, pks).1)
    decreases c
  {
    match c
    case ColT(rows) =>
      var left, all := DeleteRows(rows, pks);
      return ColT(left), [all];
    case OneT(child) =>
      var u, removed := DeleteMany(child, pks);
      return OneT(u), [removed];
    case OptT(child) =>
      var u, _ := DeleteMany(child, pks);
      return OptT(u), [];
    case ManyT(width, child) =>
      var children: seq<seq<nat>> := [];
      for k := 0 to |pks|
        invariant children == ChildPks(child.keys, pks[..k], width)
      {
        assert pks[..k + 1][..k] == pks[..k];
        children := children + KidKeys(child.keys, pks[k], width);
      }
      assert pks[..|pks|] == pks;
      var u, removed := DeleteMany(child, children);
      return ManyT(width, u), [removed];
  }

  method DeleteRows(rows: map<seq<nat>, int>, pks: seq<seq<nat>>) returns (rest: map<seq<nat>, int>, all: bool)
    ensures (rest, all) == RemoveRows(rows, pks)
  {
    rest, all := rows, true;
    for k := 0 to |pks|
      invariant (rest, all) == RemoveRows(rows, pks[..k])
    {
      assert pks[..k + 1][..k] == pks[..k];
      all := all && pks[k] in rest;
      rest := rest - {pks[k]};
    }
    assert pks[..|pks|] == pks;
  }

  lemma {:induction false} RemoveOne(keys: set<seq<nat>>, rows: map<seq<nat>, int>, pk: seq<nat>, width: nat)
    ensures RemoveKeys(keys, [pk]) == (keys - {pk}, pk in keys)
    ensures RemoveRows(rows, [pk]) == (rows - {pk}, pk in rows)
    ensures ChildPks(keys, [pk], width) == KidKeys(keys, pk, width)
  {
    assert [pk][..0] == [];
  }

  /** The statement that is generated for one field, with the flags it pushes. */
  method DeleteStatement(c: FieldTable, pk: seq<nat>) returns (rest: FieldTable, pushed: seq<bool>)
    ensures rest == DeleteField(c, [pk]).0 && (false !in pushed <==> DeleteField(c, [pk]).1)
    decreases c
  {
    match c
    case ColT(rows) =>
      RemoveOne({}, rows, pk, 0);
      return ColT(rows - {pk}), [pk in rows];
    case OneT(child) =>
      var u, removed := Delete(child, pk);
      return OneT(u), [removed];
    case OptT(child) =>
      var u, _ := Delete(child, pk);
      return OptT(u), [];
    case ManyT(width, child) =>
      RemoveOne(child.keys, map[], pk, width);
      var u, removed := DeleteMany(child, KidKeys(child.keys, pk, width));
      return ManyT(width, u), [removed];
  }

  /** The generated `delete` of one entity, which is a `delete_many` of one. */
  method Delete(t: Tables, pk: seq<nat>) returns (u: Tables, removed: bool)
    ensures (u, removed) == DeleteAll(t, [pk])
    ensures Without(t, u, {pk}) && (removed <==> AllThere(t, {pk}))
    decreases t
  {
    RemoveOne(t.keys, map[], pk, 0);
    var flags := [pk in t.keys];
    var cols: seq<FieldTable> := [];
    for i := 0 to |t.cols|
      invariant cols == DeleteFields(t, [pk], i).0
      invariant false !in flags <==> pk in t.keys && DeleteFields(t, [pk], i).1
    {
      var rest, pushed := DeleteStatement(t.cols[i], pk);
      cols := cols + [rest];
      flags := flags + pushed;
    }
    u := Tables(t.keys - {pk}, cols);
    removed := false !in flags;
    DeletesExactly(t, [pk]);
    assert SetOf([pk]) == {pk};
  }

  // ---- a delete undoes a store ----------------------------------------------------------------------------------

  ghost predicate ApartPks(pks: seq<seq<nat>>) {
    forall i, j :: 0 <= i < j < |pks| ==> Apart(pks[i], pks[j])
  }

  lemma LastIsNew(pks: seq<seq<nat>>)
    requires ApartPks(pks) && pks != []
    ensures pks[|pks| - 1] !in pks[..|pks| - 1]
  {
    forall i | 0 <= i < |pks| - 1 ensures pks[i] != pks[|pks| - 1] {
      assert Apart(pks[i], pks[|pks| - 1]);
    }
  }

  lemma {:induction false} RemoveKeysIs(keys: set<seq<nat>>, pks: seq<seq<nat>>)
    requires ApartPks(pks)
    ensures RemoveKeys(keys, pks).0 == keys - (set q | q in pks)
    ensures RemoveKeys(keys, pks).1 <==> forall q :: q in pks ==> q in keys
  {
    if pks != [] {
      var m := |pks| - 1;
      RemoveKeysIs(keys, pks[..m]);
      assert forall q :: q in pks <==> q in pks[..m] || q == pks[m];
      LastIsNew(pks);
    }
  }

  lemma {:induction false} RemoveRowsIs(rows: map<seq<nat>, int>, pks: seq<seq<nat>>)
    requires ApartPks(pks)
    ensures RemoveRows(rows, pks).0 == rows - (set q | q in pks)
    ensures RemoveRows(rows, pks).1 <==> forall q :: q in pks ==> q in rows
  {
    if pks != [] {
      var m := |pks| - 1;
      RemoveRowsIs(rows, pks[..m]);
      assert forall q :: q in pks <==> q in pks[..m] || q == pks[m];
      LastIsNew(pks);
    }
  }

  /** The entities can be stored, the pointers to be deleted are apart, and nothing is there yet. */
  ghost predicate Undoable(t: Tables, es: seq<Entity>, pks: seq<seq<nat>>) {
    Storable(t, es) && ApartPks(pks) && forall q :: q in pks ==> Clear(t, q)
  }

  /** Every entity stands at a pointer to be deleted. */
  ghost predicate Covered(es: seq<Entity>, pks: seq<seq<nat>>) {
    forall e :: e in es ==> e.pk in pks
  }

  /** Every pointer to be deleted is that of an entity. */
  ghost predicate Complete(es: seq<Entity>, pks: seq<seq<nat>>) {
    forall q :: q in pks ==> exists e :: e in es && e.pk == q
  }

  ghost predicate RightBelow(p: seq<nat>, q: seq<nat>) {
    |q| == |p| + 1 && p <= q
  }

  /** The range of `p` leads to `q`. */
  ghost predicate Reaches(p: seq<nat>, q: seq<nat>, width: nat) {
    RightBelow(p, q) && HasNext(p, width)
  }

  lemma ChildKeyIs(keys: set<seq<nat>>, pk: seq<nat>, q: seq<nat>, width: nat)
    ensures q in KidKeys(keys, pk, width) <==> q in keys && Reaches(pk, q, width)
  {
    if pk != [] { ChildKeysBelow(keys, pk, width); }
  }

  lemma {:induction false} ChildPksAre(keys: set<seq<nat>>, pks: seq<seq<nat>>, q: seq<nat>, width: nat)
    ensures q in ChildPks(keys, pks, width) <==> q in keys && exists p :: p in pks && Reaches(p, q, width)
  {
    if pks != [] {
      var m := |pks| - 1;
      ChildPksAre(keys, pks[..m], q, width);
      ChildKeyIs(keys, pks[m], q, width);
      ChildPksStep(keys, pks, ChildPks(keys, pks[..m], width), KidKeys(keys, pks[m], width), q, width);
    }
  }

  lemma ChildPksStep(keys: set<seq<nat>>, pks: seq<seq<nat>>, before: seq<seq<nat>>, last: seq<seq<nat>>, q: seq<nat>,
                     width: nat)
    requires pks != []
    requires q in before <==> q in keys && exists p :: p in pks[..|pks| - 1] && Reaches(p, q, width)
    requires q in last <==> q in keys && Reaches(pks[|pks| - 1], q, width)
    ensures q in before + last <==> q in keys && exists p :: p in pks && Reaches(p, q, width)
  {
    if q in before {
      var p :| p in pks[..|pks| - 1] && Reaches(p, q, width);
      assert p in pks;
    }
    if q in last { assert pks[|pks| - 1] in pks; }
  }

  lemma ApartConcat(before: seq<seq<nat>>, last: seq<seq<nat>>)
    requires ApartPks(before) && ApartPks(last)
    requires forall k, l :: 0 <= k < |before| && 0 <= l < |last| ==> Apart(before[k], last[l])
    ensures ApartPks(before + last)
  {
  }

  lemma ChildrenApart(keys: set<seq<nat>>, pks: seq<seq<nat>>, b: seq<nat>, l: seq<nat>, width: nat)
    requires pks != [] && ApartPks(pks)
    requires b in ChildPks(keys, pks[..|pks| - 1], width) && l in KidKeys(keys, pks[|pks| - 1], width)
    ensures Apart(b, l)
  {
    var m := |pks| - 1;
    ChildPksAre(keys, pks[..m], b, width);
    ChildKeyIs(keys, pks[m], l, width);
    var p :| p in pks[..m] && Reaches(p, b, width);
    var i :| 0 <= i < m && pks[..m][i] == p;
    assert Apart(pks[i], pks[m]);
    ApartBelow(p, pks[m], b, l);
  }

  lemma {:induction false} ChildPksApart(keys: set<seq<nat>>, pks: seq<seq<nat>>, width: nat)
    requires ApartPks(pks)
    ensures ApartPks(ChildPks(keys, pks, width))
  {
    if pks != [] {
      var m := |pks| - 1;
      var before, last := ChildPks(keys, pks[..m], width), KidKeys(keys, pks[m], width);
      ChildPksApart(keys, pks[..m], width);
      ChildKeysApart(keys, pks[m], width);
      forall k, l | 0 <= k < |before| && 0 <= l < |last| ensures Apart(before[k], last[l]) {
        ChildrenApart(keys, pks, before[k], last[l], width);
      }
      ApartConcat(before, last);
    }
  }

  lemma ChildKeysApart(keys: set<seq<nat>>, pk: seq<nat>, width: nat)
    ensures ApartPks(KidKeys(keys, pk, width))
  {
    var list := KidKeys(keys, pk, width);
    if pk != [] { ChildKeysBelow(keys, pk, width); }
    forall i, j | 0 <= i < j < |list| ensures Apart(list[i], list[j]) {
      LessTotal(list[i], list[j]);
      SameLengthApart(list[i], list[j]);
    }
  }

  lemma {:induction false} RowsUndone(rows: map<seq<nat>, int>, es: seq<Entity>, i: nat, gone: set<seq<nat>>)
    requires forall e :: e in es ==> e.pk in gone
    requires forall q :: q in rows ==> q !in gone
    ensures StoreRows(rows, es, i) - gone == rows
  {
    if es != [] {
      var m := |es| - 1;
      RowsUndone(rows, es[..m], i, gone);
      assert es[m] in es;
    }
  }

  // ---- what a delete does and says, on any tables ---------------------------------------------------------------

  function SetOf(pks: seq<seq<nat>>): set<seq<nat>> {
    set q | q in pks
  }

  /** The keys that the ranges of the pointers lead to. */
  ghost function Reached(keys: set<seq<nat>>, ps: set<seq<nat>>, width: nat): set<seq<nat>> {
    set q | q in keys && exists p :: p in ps && Reaches(p, q, width)
  }

  /** Everything at the pointers is there: the keys, a row in every column, the one-to-one children, and everything of
      the children that the lists reach. Optional children are not asked about. */
  ghost predicate AllThere(t: Tables, ps: set<seq<nat>>)
    decreases t
  {
    ps <= t.keys && forall i :: 0 <= i < |t.cols| ==> ThereField(t.cols[i], ps)
  }

  ghost predicate ThereField(c: FieldTable, ps: set<seq<nat>>)
    decreases c
  {
    match c
    case ColT(rows) => forall q :: q in ps ==> q in rows
    case OneT(child) => AllThere(child, ps)
    case OptT(_) => true
    case ManyT(width, child) => AllThere(child, Reached(child.keys, ps, width))
  }

  /** `u` is `t` without what stands at the pointers, and without the children that stand there or are reached. */
  ghost predicate Without(t: Tables, u: Tables, ps: set<seq<nat>>)
    decreases t
  {
    && u.keys == t.keys - ps
    && |u.cols| == |t.cols| && forall i :: 0 <= i < |t.cols| ==> WithoutField(t.cols[i], u.cols[i], ps)
  }

  ghost predicate WithoutField(c: FieldTable, d: FieldTable, ps: set<seq<nat>>)
    decreases c
  {
    match c
    case ColT(rows) => d.ColT? && d.rows == rows - ps
    case OneT(child) => d.OneT? && Without(child, d.child, ps)
    case OptT(child) => d.OptT? && Without(child, d.child, ps)
    case ManyT(width, child) =>
      d.ManyT? && d.width == width && Without(child, d.child, Reached(child.keys, ps, width))
  }

  lemma {:induction false} ReachedAre(keys: set<seq<nat>>, pks: seq<seq<nat>>, width: nat)
    ensures SetOf(ChildPks(keys, pks, width)) == Reached(keys, SetOf(pks), width)
  {
    forall q ensures q in SetOf(ChildPks(keys, pks, width)) <==> q in Reached(keys, SetOf(pks), width) {
      ChildPksAre(keys, pks, q, width);
      if p :| p in pks && Reaches(p, q, width) { assert p in SetOf(pks); }
    }
  }

  /** Whatever the tables hold: deleting pointers that stand apart takes away what stands there, and says true exactly
      if all of it was there. */
  lemma {:induction false} DeletesExactly(t: Tables, pks: seq<seq<nat>>)
    requires ApartPks(pks)
    ensures Without(t, DeleteAll(t, pks).0, SetOf(pks))
    ensures DeleteAll(t, pks).1 <==> AllThere(t, SetOf(pks))
    decreases t, 2
  {
    RemoveKeysIs(t.keys, pks);
    FieldFlags(t, pks, |t.cols|);
    var u := DeleteAll(t, pks).0;
    forall i | 0 <= i < |t.cols|
      ensures WithoutField(t.cols[i], u.cols[i], SetOf(pks))
      ensures DeleteField(t.cols[i], pks).1 <==> ThereField(t.cols[i], SetOf(pks))
    {
      DeletedField(t, pks, |t.cols|, i);
      DeletesFieldExactly(t.cols[i], pks);
    }
  }

  /** All flags of the first `m` fields are true. */
  lemma {:induction false} FieldFlags(t: Tables, pks: seq<seq<nat>>, m: nat)
    requires m <= |t.cols|
    ensures DeleteFields(t, pks, m).1 <==> forall i :: 0 <= i < m ==> DeleteField(t.cols[i], pks).1
  {
    if m > 0 { FieldFlags(t, pks, m - 1); }
  }

  lemma {:induction false} DeletesFieldExactly(c: FieldTable, pks: seq<seq<nat>>)
    requires ApartPks(pks)
    ensures WithoutField(c, DeleteField(c, pks).0, SetOf(pks))
    ensures DeleteField(c, pks).1 <==> ThereField(c, SetOf(pks))
    decreases c
  {
    match c
    case ColT(rows) => RemoveRowsIs(rows, pks);
    case OneT(child) => DeletesExactly(child, pks);
    case OptT(child) => DeletesExactly(child, pks);
    case ManyT(width, child) =>
      ChildPksApart(child.keys, pks, width);
      ReachedAre(child.keys, pks, width);
      DeletesExactly(child, ChildPks(child.keys, pks, width));
  }

  /** Deleting a pointer that is not stored says false. */
  lemma {:induction false} NotStoredSaysFalse(t: Tables, pks: seq<seq<nat>>, q: seq<nat>)
    requires ApartPks(pks) && q in pks && q !in t.keys
    ensures !DeleteAll(t, pks).1
  {
    DeletesExactly(t, pks);
    assert q in SetOf(pks);
  }

  // ---- what comes back ------------------------------------------------------------------------------------------

  ghost predicate AllInLimits(t: Tables, es: seq<Entity>) {
    forall e :: e in es ==> InLimits(t, e)
  }

  ghost predicate FieldInLimits(t: Tables, es: seq<Entity>, i: nat)
    requires i < |t.cols|
  {
    forall e :: e in es && i < |e.values| ==> InLimitsValue(t.cols[i], e.values[i], e.pk)
  }

  /** A delete of the pointers that entities were stored for, where nothing was, restores every table exactly if the
      entities are within the limits; otherwise children stay behind. */
  lemma {:induction false} DeleteUndoesStore(t: Tables, es: seq<Entity>, pks: seq<seq<nat>>)
    requires Undoable(t, es, pks) && Covered(es, pks)
    ensures DeleteAll(StoreAll(t, es), pks).0 == t <==> AllInLimits(t, es)
    decreases t, 1
  {
    var u := StoreAll(t, es);
    var d := DeleteAll(u, pks).0;
    assert d.keys == t.keys by { KeysUndone(t, es, pks); }
    forall i | 0 <= i < |t.cols| ensures d.cols[i] == t.cols[i] <==> FieldInLimits(t, es, i) {
      DeletedField(u, pks, |t.cols|, i);
      DeleteFieldUndo(t, es, pks, i);
    }
    SameFieldsSame(t, d, es);
  }

  lemma SameFieldsSame(t: Tables, d: Tables, es: seq<Entity>)
    requires d.keys == t.keys && |d.cols| == |t.cols|
    requires forall i :: 0 <= i < |t.cols| ==> (d.cols[i] == t.cols[i] <==> FieldInLimits(t, es, i))
    ensures d == t <==> AllInLimits(t, es)
  {
    if forall i :: 0 <= i < |t.cols| ==> FieldInLimits(t, es, i) {
      assert d.cols == t.cols;
    } else {
      var i :| 0 <= i < |t.cols| && !FieldInLimits(t, es, i);
      var e :| e in es && i < |e.values| && !InLimitsValue(t.cols[i], e.values[i], e.pk);
      assert d.cols[i] != t.cols[i];
    }
  }

  lemma {:induction false} KeysUndone(t: Tables, es: seq<Entity>, pks: seq<seq<nat>>)
    requires Undoable(t, es, pks) && Covered(es, pks)
    ensures RemoveKeys(t.keys + KeysOf(es), pks).0 == t.keys
  {
    RemoveKeysIs(t.keys + KeysOf(es), pks);
    forall q | q in pks ensures q !in t.keys { assert Clear(t, q); }
  }

  lemma {:induction false} DeleteFieldUndo(t: Tables, es: seq<Entity>, pks: seq<seq<nat>>, i: nat)
    requires Undoable(t, es, pks) && Covered(es, pks) && i < |t.cols|
    ensures DeleteField(StoreField(t.cols[i], es, i), pks).0 == t.cols[i] <==> FieldInLimits(t, es, i)
    decreases t, 0
  {
    var c := t.cols[i];
    if c.ColT? {
      DeleteColumnUndo(t, es, pks, i);
    } else {
      var kids := Kids(es, i);
      KidsStorable(t, es, i);
      if !c.ManyT? {
        KidsHere(t, es, pks, i);
        DeleteUndoesStore(c.child, kids, pks);
        KidsInLimits(t, es, i);
      } else if AllReached(es, i, c.width) {
        KidsBelow(t, es, pks, i);
        KidsCovered(t, es, pks, i);
        DeleteUndoesStore(c.child, kids, ChildPks(StoreAll(c.child, kids).keys, pks, c.width));
        KidsInLimits(t, es, i);
      } else {
        ChildStays(t, es, pks, i);
      }
    }
  }

  lemma {:induction false} DeleteColumnUndo(t: Tables, es: seq<Entity>, pks: seq<seq<nat>>, i: nat)
    requires Undoable(t, es, pks) && Covered(es, pks) && i < |t.cols| && t.cols[i].ColT?
    ensures DeleteField(StoreField(t.cols[i], es, i), pks).0 == t.cols[i]
  {
    var rows := t.cols[i].rows;
    RemoveRowsIs(StoreRows(rows, es, i), pks);
    forall q | q in pks ensures q !in rows {
      assert ClearField(t.cols[i], q);
    }
    RowsUndone(rows, es, i, set q | q in pks);
  }

  /** For a one-to-one or optional child the same pointers are deleted. */
  lemma {:induction false} KidsHere(t: Tables, es: seq<Entity>, pks: seq<seq<nat>>, i: nat)
    requires Undoable(t, es, pks) && i < |t.cols| && (t.cols[i].OneT? || t.cols[i].OptT?)
    ensures Undoable(t.cols[i].child, Kids(es, i), pks)
    ensures Covered(es, pks) ==> Covered(Kids(es, i), pks)
  {
    KidsStorable(t, es, i);
    forall x | x in Kids(es, i) ensures exists e :: e in es && e.pk == x.pk {
      KidsAre(es, i, x);
      var e :| e in es && i < |e.values| && x in KidsOf(e.values[i]);
      assert Fits(t, e) && FitsField(t.cols[i], e.values[i]);
      assert e.values[i] in e.values && WellFormedValue(e.values[i], e.pk);
    }
    forall q | q in pks ensures Clear(t.cols[i].child, q) {
      assert ClearField(t.cols[i], q);
    }
  }

  /** Every pointer with children has a next index. */
  ghost predicate AllReached(es: seq<Entity>, i: nat, width: nat) {
    forall e :: e in es && i < |e.values| && KidsOf(e.values[i]) != [] ==> HasNext(e.pk, width)
  }

  /** The children are within the limits exactly if the field is, unless it is already beyond them itself. */
  lemma {:induction false} KidsInLimits(t: Tables, es: seq<Entity>, i: nat)
    requires Storable(t, es) && i < |t.cols| && !t.cols[i].ColT?
    requires t.cols[i].ManyT? ==> AllReached(es, i, t.cols[i].width)
    ensures AllInLimits(t.cols[i].child, Kids(es, i)) <==> FieldInLimits(t, es, i)
  {
    forall e | e in es && i < |e.values|
      ensures InLimitsValue(t.cols[i], e.values[i], e.pk)
         <==> forall x :: x in KidsOf(e.values[i]) ==> InLimits(t.cols[i].child, x)
    {
      assert Fits(t, e) && FitsField(t.cols[i], e.values[i]);
      ValueInLimits(t.cols[i], e.values[i], e.pk);
    }
    if FieldInLimits(t, es, i) {
      forall x | x in Kids(es, i) ensures InLimits(t.cols[i].child, x) {
        KidsAre(es, i, x);
      }
    }
    if AllInLimits(t.cols[i].child, Kids(es, i)) {
      forall e, x | e in es && i < |e.values| && x in KidsOf(e.values[i]) ensures InLimits(t.cols[i].child, x) {
        KidsAre(es, i, x);
      }
    }
  }

  lemma {:induction false} ValueInLimits(c: FieldTable, v: Value, pk: seq<nat>)
    requires !c.ColT? && FitsField(c, v) && (c.ManyT? && KidsOf(v) != [] ==> HasNext(pk, c.width))
    ensures InLimitsValue(c, v, pk) <==> forall x :: x in KidsOf(v) ==> InLimits(c.child, x)
  {
    if v.OneV? { assert v.one in KidsOf(v); }
    if v.OptV? && v.opt.Some? { assert v.opt.value in KidsOf(v); }
  }

  /** For one-to-many children the range reads find only pointers of stored children. */
  lemma {:induction false} KidsBelow(t: Tables, es: seq<Entity>, pks: seq<seq<nat>>, i: nat)
    requires Undoable(t, es, pks) && i < |t.cols| && t.cols[i].ManyT?
    ensures var child, kids := t.cols[i].child, Kids(es, i);
            var gone := ChildPks(StoreAll(child, kids).keys, pks, t.cols[i].width);
            Undoable(child, kids, gone) && Complete(kids, gone)
  {
    var child, kids, width := t.cols[i].child, Kids(es, i), t.cols[i].width;
    var u := StoreAll(child, kids);
    var gone := ChildPks(u.keys, pks, width);
    KidsStorable(t, es, i);
    ChildPksApart(u.keys, pks, width);
    forall k | 0 <= k < |gone|
      ensures gone[k] != [] && Clear(child, gone[k]) && exists x :: x in kids && x.pk == gone[k]
    {
      var q := gone[k];
      assert q in gone;
      ChildPksAre(u.keys, pks, q, width);
      var p :| p in pks && Reaches(p, q, width);
      assert ClearField(t.cols[i], p);
      ClearBelow(child, p, q);
    }
  }

  /** They find all of them if every pointer with children has a next index. */
  lemma {:induction false} KidsCovered(t: Tables, es: seq<Entity>, pks: seq<seq<nat>>, i: nat)
    requires Undoable(t, es, pks) && Covered(es, pks) && i < |t.cols| && t.cols[i].ManyT?
    requires AllReached(es, i, t.cols[i].width)
    ensures Covered(Kids(es, i), ChildPks(StoreAll(t.cols[i].child, Kids(es, i)).keys, pks, t.cols[i].width))
  {
    var kids, width := Kids(es, i), t.cols[i].width;
    forall x | x in kids ensures x.pk in ChildPks(StoreAll(t.cols[i].child, kids).keys, pks, width) {
      var e := KidBelow(t, es, i, x);
      assert Reaches(e.pk, x.pk, width);
      ChildPksAre(StoreAll(t.cols[i].child, kids).keys, pks, x.pk, width);
    }
  }

  lemma KidBelow(t: Tables, es: seq<Entity>, i: nat, x: Entity) returns (e: Entity)
    requires Storable(t, es) && i < |t.cols| && t.cols[i].ManyT? && x in Kids(es, i)
    ensures e in es && i < |e.values| && x in KidsOf(e.values[i]) && RightBelow(e.pk, x.pk)
  {
    e := KidFrom(es, i, x);
    assert Fits(t, e) && FitsField(t.cols[i], e.values[i]);
    assert e.values[i] in e.values && WellFormedValue(e.values[i], e.pk);
  }

  lemma OneParent(p: seq<nat>, q: seq<nat>, r: seq<nat>)
    requires RightBelow(p, r) && RightBelow(q, r)
    ensures p == q
  {
    assert p == r[..|p|] && q == r[..|q|];
  }

  lemma UnreachedChild(t: Tables, es: seq<Entity>, i: nat) returns (e: Entity, x: Entity)
    requires Storable(t, es) && i < |t.cols| && t.cols[i].ManyT? && !AllReached(es, i, t.cols[i].width)
    ensures e in es && i < |e.values| && x in Kids(es, i) && RightBelow(e.pk, x.pk) && !HasNext(e.pk, t.cols[i].width)
    ensures !FieldInLimits(t, es, i)
  {
    e :| e in es && i < |e.values| && KidsOf(e.values[i]) != [] && !HasNext(e.pk, t.cols[i].width);
    assert Fits(t, e) && FitsField(t.cols[i], e.values[i]);
    assert e.values[i] in e.values && WellFormedValue(e.values[i], e.pk);
    x := KidsOf(e.values[i])[0];
    assert x in KidsOf(e.values[i]);
    KidsAre(es, i, x);
  }

  lemma {:induction false} NothingBelow(t: Tables, pk: seq<nat>, q: seq<nat>)
    requires Clear(t, pk) && pk <= q
    ensures q !in t.keys
  {
  }

  lemma {:induction false} UnreachedStays(u: Tables, pks: seq<seq<nat>>, width: nat, p: seq<nat>, q: seq<nat>)
    requires q in u.keys && RightBelow(p, q) && !HasNext(p, width)
    ensures q in DeleteAll(u, ChildPks(u.keys, pks, width)).0.keys
  {
    ChildPksAre(u.keys, pks, q, width);
    if r :| r in pks && Reaches(r, q, width) { OneParent(r, p, q); }
    RemoveOthers(u.keys, map[], ChildPks(u.keys, pks, width), q);
  }

  /** The children of a pointer with the greatest index stay. */
  lemma {:induction false} ChildStays(t: Tables, es: seq<Entity>, pks: seq<seq<nat>>, i: nat)
    requires Undoable(t, es, pks) && Covered(es, pks) && i < |t.cols| && t.cols[i].ManyT?
    requires !AllReached(es, i, t.cols[i].width)
    ensures DeleteField(StoreField(t.cols[i], es, i), pks).0 != t.cols[i] && !FieldInLimits(t, es, i)
  {
    var child := t.cols[i].child;
    var e, x := UnreachedChild(t, es, i);
    UnreachedStays(StoreAll(child, Kids(es, i)), pks, t.cols[i].width, e.pk, x.pk);
    assert ClearField(t.cols[i], e.pk);
    NothingBelow(child, e.pk, x.pk);
  }

  // ---- what a delete says -----------------------------------------------------------------------------------------

  /** A delete says true when all of its pointers were stored, also if it leaves children behind. */
  lemma {:induction false} DeleteSaysTrue(t: Tables, es: seq<Entity>, pks: seq<seq<nat>>)
    requires Undoable(t, es, pks) && Complete(es, pks)
    ensures DeleteAll(StoreAll(t, es), pks).1
    decreases t, 1, 0
  {
    RemoveKeysIs(t.keys + KeysOf(es), pks);
    DeleteFieldsSayTrue(t, es, pks, |t.cols|);
  }

  lemma {:induction false} DeleteFieldsSayTrue(t: Tables, es: seq<Entity>, pks: seq<seq<nat>>, m: nat)
    requires Undoable(t, es, pks) && Complete(es, pks) && m <= |t.cols|
    ensures DeleteFields(StoreAll(t, es), pks, m).1
    decreases t, 0, m
  {
    if m > 0 {
      DeleteFieldsSayTrue(t, es, pks, m - 1);
      DeleteFieldSaysTrue(t, es, pks, m - 1);
    }
  }

  lemma {:induction false} DeleteFieldSaysTrue(t: Tables, es: seq<Entity>, pks: seq<seq<nat>>, i: nat)
    requires Undoable(t, es, pks) && Complete(es, pks) && i < |t.cols|
    ensures DeleteField(StoreField(t.cols[i], es, i), pks).1
    decreases t, 0, 0
  {
    var c := t.cols[i];
    match c
    case ColT(rows) =>
      RemoveRowsIs(StoreRows(rows, es, i), pks);
      forall q | q in pks ensures q in StoreRows(rows, es, i) {
        var e :| e in es && e.pk == q;
        var k :| 0 <= k < |es| && es[k] == e;
        assert Fits(t, e) && FitsField(t.cols[i], e.values[i]);
        StoredRow(rows, es, i, k);
      }
    case OneT(child) =>
      KidsHere(t, es, pks, i);
      OneChildren(t, es, pks, i);
      DeleteSaysTrue(child, Kids(es, i), pks);
    case OptT(_) =>
    case ManyT(width, child) =>
      KidsBelow(t, es, pks, i);
      DeleteSaysTrue(child, Kids(es, i), ChildPks(StoreAll(child, Kids(es, i)).keys, pks, width));
  }

  lemma {:induction false} OneChildren(t: Tables, es: seq<Entity>, pks: seq<seq<nat>>, i: nat)
    requires Undoable(t, es, pks) && Complete(es, pks) && i < |t.cols| && t.cols[i].OneT?
    ensures Complete(Kids(es, i), pks)
  {
    forall q | q in pks ensures exists x :: x in Kids(es, i) && x.pk == q {
      var e :| e in es && e.pk == q;
      assert Fits(t, e) && FitsField(t.cols[i], e.values[i]);
      assert e.values[i] in e.values && WellFormedValue(e.values[i], e.pk);
      assert e.values[i].one in KidsOf(e.values[i]);
      KidsAre(es, i, e.values[i].one);
    }
  }

  /** Storing one entity where nothing is and deleting it: the delete says true in any case, and restores every table
      exactly if the entity is within the limits. */
  lemma {:induction false} StoreThenDelete(t: Tables, e: Entity)
    requires Fits(t, e) && WellFormed(e) && Clear(t, e.pk)
    ensures DeleteAll(StoreAll(t, [e]), [e.pk]).1
    ensures DeleteAll(StoreAll(t, [e]), [e.pk]).0 == t <==> InLimits(t, e)
  {
    assert e in [e];
    DeleteUndoesStore(t, [e], [e.pk]);
    DeleteSaysTrue(t, [e], [e.pk]);
  }

  // ---- frame --------------------------------------------------------------------------------------------------

  lemma {:induction false} RemoveOthers(keys: set<seq<nat>>, rows: map<seq<nat>, int>, pks: seq<seq<nat>>, q: seq<nat>)
    requires q !in pks
    ensures q in RemoveKeys(keys, pks).0 <==> q in keys
    ensures q in RemoveRows(rows, pks).0 <==> q in rows
    ensures q in rows ==> RemoveRows(rows, pks).0[q] == rows[q]
  {
    if pks != [] { RemoveOthers(keys, rows, pks[..|pks| - 1], q); }
  }

  lemma {:induction false} DeletedField(t: Tables, pks: seq<seq<nat>>, m: nat, i: nat)
    requires i < m <= |t.cols|
    ensures DeleteFields(t, pks, m).0[i] == DeleteField(t.cols[i], pks).0
  {
    if i < m - 1 { DeletedField(t, pks, m - 1, i); }
  }

  ghost predicate AllApart(pks: seq<seq<nat>>, q: seq<nat>) {
    forall k :: 0 <= k < |pks| ==> Apart(pks[k], q)
  }

  lemma {:induction false} ChildPksApartFrom(keys: set<seq<nat>>, pks: seq<seq<nat>>, q: seq<nat>, width: nat)
    requires AllApart(pks, q)
    ensures AllApart(ChildPks(keys, pks, width), q)
  {
    var list := ChildPks(keys, pks, width);
    forall k | 0 <= k < |list| ensures Apart(list[k], q) {
      assert list[k] in list;
      ChildPksAre(keys, pks, list[k], width);
      var p :| p in pks && Reaches(p, list[k], width);
      var i :| 0 <= i < |pks| && pks[i] == p;
      ApartBelow(p, q, list[k], q);
    }
  }

  lemma {:induction false} KeysBelowStay(keys: set<seq<nat>>, rows: map<seq<nat>, int>, pks: seq<seq<nat>>, q: seq<nat>)
    requires AllApart(pks, q)
    ensures forall k :: q <= k ==> (k in RemoveKeys(keys, pks).0 <==> k in keys)
    ensures forall k :: q <= k ==> SameRow(rows, RemoveRows(rows, pks).0, k)
  {
    forall k | q <= k
      ensures k in RemoveKeys(keys, pks).0 <==> k in keys
      ensures SameRow(rows, RemoveRows(rows, pks).0, k)
    {
      assert k !in pks;
      RemoveOthers(keys, rows, pks, k);
    }
  }

  /** Deleting changes nothing at or below a pointer that stands apart. */
  lemma {:induction false} DeleteSameBelow(t: Tables, pks: seq<seq<nat>>, q: seq<nat>)
    requires AllApart(pks, q)
    ensures SameBelow(t, DeleteAll(t, pks).0, q)
    decreases t
  {
    KeysBelowStay(t.keys, map[], pks, q);
    forall i | 0 <= i < |t.cols| ensures SameFieldBelow(t.cols[i], DeleteFields(t, pks, |t.cols|).0[i], q) {
      DeletedField(t, pks, |t.cols|, i);
      match t.cols[i]
      case ColT(rows) => KeysBelowStay({}, rows, pks, q);
      case OneT(child) => DeleteSameBelow(child, pks, q);
      case OptT(child) => DeleteSameBelow(child, pks, q);
      case ManyT(width, child) =>
        ChildPksApartFrom(child.keys, pks, q, width);
        DeleteSameBelow(child, ChildPks(child.keys, pks, width), q);
    }
  }

  /** Whatever the tables hold, deleting entities leaves the read of every entity that stands apart from them as it
      was, errors included. */
  lemma {:induction false} DeleteFrame(t: Tables, pks: seq<seq<nat>>, q: seq<nat>)
    requires AllApart(pks, q)
    ensures Compose(DeleteAll(t, pks).0, q) == Compose(t, q) && Get(DeleteAll(t, pks).0, q) == Get(t, q)
  {
    DeleteSameBelow(t, pks, q);
    SameReads(t, DeleteAll(t, pks).0, q);
  }
}
