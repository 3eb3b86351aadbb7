/**
 Transferring adjustments to a pipeline, directly or as recorded transactions.  A pipeline
 is a map from slots to operator states, in which a read returns what was last written.
 */
module AdjustmentTransfer {
  import opened Wrappers
  import opened Json

  datatype Stage = Stage(index: nat) | StageCount
  datatype Operator = Unknown | Resize | Odt | Lmt | Other(id: nat)
  datatype Slot = Slot(stage: Stage, op: Operator)
  datatype OpState = OpState(params: Json, enabled: bool)
  type Ops = map<Slot, OpState>

  datatype Entry = Entry(slot: Slot, enabled: bool, merge: bool, params: Json)

  datatype TransactionKind = Add | Edit
  datatype EditTransaction = EditTransaction(
    kind: TransactionKind, slot: Slot, before: Json, after: Json, beforeEnabled: bool, afterEnabled: bool)

  /** The contents of one slot. */
  type Cell = Option<OpState>

  function CellAt(ops: Ops, s: Slot): Cell {
    if s in ops then Some(ops[s]) else None
  }

  function Put(ops: Ops, s: Slot, c: Cell): (r: Ops)
    ensures CellAt(r, s) == c
    ensures forall t :: t != s ==> CellAt(r, t) == CellAt(ops, t)
  {
    if c.Some? then ops[s := c.value] else ops - {s}
  }

  lemma SameOps(a: Ops, b: Ops)
    requires forall s :: CellAt(a, s) == CellAt(b, s)
    ensures a == b
  {
    forall s ensures (s in a <==> s in b) && (s in a ==> a[s] == b[s]) {
      assert CellAt(a, s) == CellAt(b, s);
    }
  }

  // ------------------------------------------------------------- one entry

  predicate Skipped(e: Entry) {
    e.slot.stage.StageCount? || e.slot.op.Unknown? || e.slot.op.Resize?
  }

  /** The parameters an entry leads to, given what is in its slot. */
  function Effective(c: Cell, e: Entry): Json {
    if c.None? then e.params
    else
      var p := if e.merge then Merge(c.value.params, e.params) else e.params;
      if e.slot.op.Odt? then Preserve(p, c.value.params) else p
  }

  predicate Changes(c: Cell, e: Entry) {
    !Skipped(e) && c != Some(OpState(Effective(c, e), e.enabled))
  }

  lemma SingletonKey(keys: set<string>, a: string, b: string)
    requires |keys| == 1 && a in keys && b in keys
    ensures a == b
  {
    assert |keys - {a}| == 0;
  }

  /** An `enabled` flag inside the parameters, or inside their only member. */
  function EmbeddedEnabled(params: Json): Option<bool> {
    if !params.Obj? then None
    else if "enabled" in params.fields && params.fields["enabled"].Bool? then Some(params.fields["enabled"].value)
    else if |params.fields.Keys| == 1 then
      assert forall a, b :: a in params.fields.Keys && b in params.fields.Keys ==> a == b by {
        forall a, b | a in params.fields.Keys && b in params.fields.Keys ensures a == b {
          SingletonKey(params.fields.Keys, a, b);
        }
      }
      assert params.fields.Keys != {};
      var key :| key in params.fields.Keys;
      var value := params.fields[key];
      if value.Obj? && "enabled" in value.fields && value.fields["enabled"].Bool? then Some(value.fields["enabled"].value) else None
    else None
  }

  predicate HasLutPath(params: Json) {
    && params.Obj? && "ocio_lmt" in params.fields
    && params.fields["ocio_lmt"].Str? && params.fields["ocio_lmt"].text != ""
  }

  /** Whether parameters leave the operator enabled. */
  predicate Enabling(op: Operator, params: Json) {
    if op.Lmt? then HasLutPath(params)
    else if EmbeddedEnabled(params).Some? then EmbeddedEnabled(params).value
    else true
  }

  // -------------------------------------------- writing a pipeline's slots

  function SetOp(c: Cell, params: Json): Cell {
    if c.Some? then Some(c.value.(params := params)) else Some(OpState(params, true))
  }

  function EnableOp(c: Cell, enabled: bool): Cell {
    if c.Some? then Some(c.value.(enabled := enabled)) else None
  }

  /** What a transaction writes: null parameters are not written, and an operator is not enabled against its parameters. */
  function Write(c: Cell, op: Operator, params: Json, enabled: bool): Cell {
    EnableOp(if params.Null? then c else SetOp(c, params), enabled && (params.Null? || Enabling(op, params)))
  }

  function Forward(c: Cell, tx: EditTransaction): Cell {
    Write(c, tx.slot.op, tx.after, tx.afterEnabled)
  }

  function Backward(c: Cell, tx: EditTransaction): Cell {
    Write(c, tx.slot.op, tx.before, tx.beforeEnabled)
  }

  /** The transaction recorded for an entry that changes its slot. */
  function Recorded(c: Cell, e: Entry): EditTransaction {
    if c.Some? then EditTransaction(Edit, e.slot, c.value.params, Effective(c, e), c.value.enabled, e.enabled)
    else EditTransaction(Add, e.slot, Null, e.params, false, e.enabled)
  }

  function DirectCell(c: Cell, e: Entry): Cell {
    if Changes(c, e) then EnableOp(SetOp(c, Effective(c, e)), e.enabled) else c
  }

  function TransferCell(c: Cell, e: Entry): Cell {
    if Changes(c, e) then Forward(c, Recorded(c, e)) else c
  }

  /** The parameters have a value at the path, and not an object. */
  predicate HasLeaf(params: Json, path: seq<string>) {
    Lookup(params, path).Some? && !Lookup(params, path).value.Obj?
  }

  /**
   What a direct write leaves: the entry's flag, and its parameters, of which a merging entry
   writes only what it has; an entry that asks for another value there is a change.
   */
  lemma WrittenParameters(c: Cell, e: Entry, path: seq<string>)
    requires !Skipped(e)
    ensures DirectCell(c, e).Some? && DirectCell(c, e).value.enabled == e.enabled
    ensures var params := DirectCell(c, e).value.params;
            && (c.None? || (!e.merge && !e.slot.op.Odt?) ==> params == e.params)
            && (c.Some? && e.merge && !e.slot.op.Odt? && HasLeaf(e.params, path) ==>
                  Lookup(params, path) == Lookup(e.params, path)
                  && (Lookup(c.value.params, path) != Lookup(e.params, path) ==> Changes(c, e)))
            && (c.Some? && e.merge && !e.slot.op.Odt? && Silent(e.params, path) ==>
                  Lookup(params, path) == Lookup(c.value.params, path))
  {
    if c.Some? && HasLeaf(e.params, path) {
      PatchWins(c.value.params, e.params, path);
    }
    if c.Some? && Silent(e.params, path) {
      TargetStays(c.value.params, e.params, path);
    }
  }

  /** Parameters that contradict an enabled operator: a flag that is off, in them or in their only member, or no table to look up. */
  lemma EnablingIs(op: Operator, params: Json)
    ensures op.Lmt? ==>
              (Enabling(op, params) <==>
               Lookup(params, ["ocio_lmt"]).Some? && Lookup(params, ["ocio_lmt"]).value.Str?
               && Lookup(params, ["ocio_lmt"]).value.text != "")
    ensures !op.Lmt? ==>
              (!Enabling(op, params) <==>
               || Lookup(params, ["enabled"]) == Some(Bool(false))
               || (!(Lookup(params, ["enabled"]).Some? && Lookup(params, ["enabled"]).value.Bool?)
                   && exists k, v :: params == Obj(map[k := v]) && Lookup(v, ["enabled"]) == Some(Bool(false))))
  {
    OneKey(params, "ocio_lmt");
    OneKey(params, "enabled");
    if params.Obj? {
      var keys := params.fields.Keys;
      if |keys| == 1 {
        OnlyMember(params.fields);
        var key :| key in keys;
        OneKey(params.fields[key], "enabled");
      }
      forall k, v | params == Obj(map[k := v]) ensures keys == {k} && params.fields[k] == v && |keys| == 1 {
        assert params.fields == map[k := v];
        OneKey(v, "enabled");
      }
    }
  }

  lemma OnlyMember(fields: map<string, Json>)
    requires |fields.Keys| == 1
    ensures forall k :: k in fields ==> fields == map[k := fields[k]]
  {
    forall k | k in fields ensures fields == map[k := fields[k]] {
      forall l | l in fields ensures l == k { SingletonKey(fields.Keys, k, l); }
    }
  }

  /**
   The entry changes nothing, or its parameters are present and do not contradict an enabled
   entry, or null parameters meet null parameters.
   */
  predicate Agreeing(c: Cell, e: Entry) {
    || !Changes(c, e)
    || (!Effective(c, e).Null? && (e.enabled ==> Enabling(e.slot.op, Effective(c, e))))
    || (Effective(c, e).Null? && c.Some? && c.value.params.Null?)
  }

  /** That is exactly when both ways write the same. */
  lemma WritesAgree(c: Cell, e: Entry)
    ensures DirectCell(c, e) == TransferCell(c, e) <==> Agreeing(c, e)
  {
  }

  /** After a direct write the entry changes nothing any more. */
  lemma WrittenIsSettled(c: Cell, e: Entry)
    ensures !Changes(DirectCell(c, e), e)
  {
    if !Skipped(e) {
      var p := Effective(c, e);
      assert DirectCell(c, e) == Some(OpState(p, e.enabled));
      EffectiveTwice(c, e);
    }
  }

  lemma EffectiveTwice(c: Cell, e: Entry)
    ensures Effective(Some(OpState(Effective(c, e), e.enabled)), e) == Effective(c, e)
  {
    if c.None? {
      MergeSelf(e.params);
      PreserveSelf(e.params);
    } else {
      MergeIdempotent(c.value.params, e.params);
      PreserveTwice(e.params, c.value.params);
      RefillTwice(c.value.params, e.params);
    }
  }

  // ------------------------------------------------------------ a package

  type Package = seq<Entry>

  function Step(write: (Cell, Entry) -> Cell, ops: Ops, e: Entry): Ops {
    if Skipped(e) then ops else Put(ops, e.slot, write(CellAt(ops, e.slot), e))
  }

  /** The pipeline after the entries in order. */
  function Run(write: (Cell, Entry) -> Cell, ops: Ops, package: Package): Ops
    decreases |package|
  {
    if package == [] then ops else Run(write, Step(write, ops, package[0]), package[1..])
  }

  /** Whether some entry changed its slot when it was its turn. */
  predicate Changed(write: (Cell, Entry) -> Cell, ops: Ops, package: Package)
    decreases |package|
  {
    package != [] && (Changes(CellAt(ops, package[0].slot), package[0])
                      || Changed(write, Step(write, ops, package[0]), package[1..]))
  }

  predicate DistinctSlots(package: Package) {
    forall i, j ::
      0 <= i < j < |package| && !Skipped(package[i]) && !Skipped(package[j]) ==> package[i].slot != package[j].slot
  }

  /** The last entry is written after the others. */
  lemma {:induction false} RunSnoc(write: (Cell, Entry) -> Cell, ops: Ops, package: Package)
    requires package != []
    ensures var n := |package| - 1; Run(write, ops, package) == Step(write, Run(write, ops, package[..n]), package[n])
    decreases |package|
  {
    if |package| > 1 {
      assert package[1..][..|package| - 2] == package[..|package| - 1][1..];
      RunSnoc(write, Step(write, ops, package[0]), package[1..]);
    }
  }

  /** The last entry that is written to a slot. */
  function LastOn(package: Package, s: Slot): (r: Option<nat>)
    ensures r.Some? ==> r.value < |package| && !Skipped(package[r.value]) && package[r.value].slot == s
    ensures forall j :: 0 <= j < |package| && !Skipped(package[j]) && package[j].slot == s ==> r.Some? && j <= r.value
  {
    if package == [] then None
    else
      var n := |package| - 1;
      if !Skipped(package[n]) && package[n].slot == s then Some(n) else LastOn(package[..n], s)
  }

  /** A slot holds what its last entry made of what it met. */
  lemma {:induction false} RunLast(write: (Cell, Entry) -> Cell, ops: Ops, package: Package, s: Slot)
    ensures var i := LastOn(package, s);
            CellAt(Run(write, ops, package), s) ==
              if i.None? then CellAt(ops, s)
              else write(CellAt(Run(write, ops, package[..i.value]), s), package[i.value])
  {
    if package != [] {
      var n := |package| - 1;
      RunSnoc(write, ops, package);
      RunLast(write, ops, package[..n], s);
      if LastOn(package[..n], s).Some? {
        assert package[..n][..LastOn(package[..n], s).value] == package[..LastOn(package[..n], s).value];
      }
    }
  }

  // --------------------------------------------- the two ways of applying

  function DirectResult(ops: Ops, package: Package): Ops {
    Run(DirectCell, ops, package)
  }

  function TransferResult(ops: Ops, package: Package): Ops {
    Run(TransferCell, ops, package)
  }

  /** For every package both ways report alike: until the first change neither has moved anything. */
  lemma {:induction false} FlagsAgree(ops: Ops, package: Package)
    ensures Changed(DirectCell, ops, package) == Changed(TransferCell, ops, package)
    decreases |package|
  {
    if package != [] && !Changes(CellAt(ops, package[0].slot), package[0]) {
      SameOps(Step(DirectCell, ops, package[0]), ops);
      SameOps(Step(TransferCell, ops, package[0]), ops);
      FlagsAgree(ops, package[1..]);
    }
  }

  lemma EffectiveNull(c: Cell, e: Entry)
    ensures Effective(c, e).Null? <==> e.params.Null?
  {
  }

  /** One entry makes two cells alike, if they are not, exactly when it agrees with the one and means the same for both. */
  lemma RejoinedCells(d: Cell, t: Cell, e: Entry)
    requires !Skipped(e)
    ensures DirectCell(d, e) == TransferCell(t, e) <==> Agreeing(t, e) && Effective(d, e) == Effective(t, e)
  {
    EffectiveNull(d, e);
    EffectiveNull(t, e);
  }

  /** The last entry on a slot agrees with what the transfer left there, and means the same for what the direct way left. */
  predicate Rejoined(ops: Ops, package: Package, s: Slot) {
    var i := LastOn(package, s);
    i.Some? ==>
      var e, before := package[i.value], package[..i.value];
      var d, t := CellAt(DirectResult(ops, before), s), CellAt(TransferResult(ops, before), s);
      Agreeing(t, e) && Effective(d, e) == Effective(t, e)
  }

  /** For every package the two ways reach the same pipeline exactly when every slot is rejoined. */
  lemma TransfersAgree(ops: Ops, package: Package)
    ensures DirectResult(ops, package) == TransferResult(ops, package) <==> forall s :: Rejoined(ops, package, s)
  {
    var a, b := DirectResult(ops, package), TransferResult(ops, package);
    forall s ensures CellAt(a, s) == CellAt(b, s) <==> Rejoined(ops, package, s) {
      RunLast(DirectCell, ops, package, s);
      RunLast(TransferCell, ops, package, s);
      var i := LastOn(package, s);
      if i.Some? {
        var before := package[..i.value];
        RejoinedCells(CellAt(DirectResult(ops, before), s), CellAt(TransferResult(ops, before), s), package[i.value]);
      }
    }
    if forall s :: Rejoined(ops, package, s) {
      SameOps(a, b);
    }
  }

  predicate WithoutNull(package: Package) {
    forall i :: 0 <= i < |package| && !Skipped(package[i]) ==> !package[i].params.Null?
  }

  /** The same operators with the same parameters, enabled or not. */
  predicate SameParams(d: Cell, t: Cell) {
    (d.Some? <==> t.Some?) && (d.Some? ==> d.value.params == t.value.params)
  }

  lemma {:induction false} ParamsAgree(d: Ops, t: Ops, package: Package)
    requires WithoutNull(package) && forall s :: SameParams(CellAt(d, s), CellAt(t, s))
    ensures forall s :: SameParams(CellAt(DirectResult(d, package), s), CellAt(TransferResult(t, package), s))
    decreases |package|
  {
    if package != [] {
      var e := package[0];
      var d', t' := Step(DirectCell, d, e), Step(TransferCell, t, e);
      forall s ensures SameParams(CellAt(d', s), CellAt(t', s)) {
        assert SameParams(CellAt(d, s), CellAt(t, s));
        EffectiveNull(CellAt(t, s), e);
      }
      assert forall i :: 0 <= i < |package[1..]| ==> package[1..][i] == package[i + 1];
      ParamsAgree(d', t', package[1..]);
      assert DirectResult(d, package) == DirectResult(d', package[1..]);
      assert TransferResult(t, package) == TransferResult(t', package[1..]);
    }
  }

  /** The last entry on a slot agrees with what the transfer left there. */
  predicate LastAgrees(ops: Ops, package: Package, s: Slot) {
    var i := LastOn(package, s);
    i.Some? ==> Agreeing(CellAt(TransferResult(ops, package[..i.value]), s), package[i.value])
  }

  /** Without null parameters both ways always leave the same parameters, and the last entry of each slot alone decides. */
  lemma LastEntriesDecide(ops: Ops, package: Package)
    requires WithoutNull(package)
    ensures forall s :: SameParams(CellAt(DirectResult(ops, package), s), CellAt(TransferResult(ops, package), s))
    ensures DirectResult(ops, package) == TransferResult(ops, package) <==>
            forall s :: LastAgrees(ops, package, s)
  {
    ParamsAgree(ops, ops, package);
    TransfersAgree(ops, package);
    forall s ensures Rejoined(ops, package, s) <==> LastAgrees(ops, package, s) {
      var i := LastOn(package, s);
      if i.Some? {
        var before := package[..i.value];
        ParamsAgree(ops, ops, before);
        assert SameParams(CellAt(DirectResult(ops, before), s), CellAt(TransferResult(ops, before), s));
      }
    }
  }

  /** Every entry agrees when it is its turn, whatever slots repeat. */
  predicate AllAgree(ops: Ops, package: Package)
    decreases |package|
  {
    package != [] ==>
      && (Skipped(package[0]) || Agreeing(CellAt(ops, package[0].slot), package[0]))
      && AllAgree(Step(DirectCell, ops, package[0]), package[1..])
  }

  ghost predicate InLockstep(ops: Ops, package: Package) {
    forall n :: 0 <= n <= |package| ==> DirectResult(ops, package[..n]) == TransferResult(ops, package[..n])
  }

  /** For every package, repeated slots included, the two ways stay together entry by entry exactly when the entries agree. */
  lemma {:induction false} LockstepIff(ops: Ops, package: Package)
    ensures InLockstep(ops, package) <==> AllAgree(ops, package)
    decreases |package|
  {
    if package != [] {
      var e, rest := package[0], package[1..];
      var d, t := Step(DirectCell, ops, e), Step(TransferCell, ops, e);
      WritesAgree(CellAt(ops, e.slot), e);
      forall n | 0 < n <= |package|
        ensures DirectResult(ops, package[..n]) == DirectResult(d, rest[..n - 1])
        ensures TransferResult(ops, package[..n]) == TransferResult(t, rest[..n - 1])
      {
        assert package[..n][1..] == rest[..n - 1];
      }
      LockstepIff(d, rest);
      if InLockstep(ops, package) {
        assert DirectResult(ops, package[..1]) == d && TransferResult(ops, package[..1]) == t;
        forall n | 0 <= n <= |rest| ensures DirectResult(d, rest[..n]) == TransferResult(d, rest[..n]) {
          assert DirectResult(ops, package[..n + 1]) == TransferResult(ops, package[..n + 1]);
        }
      }
      if AllAgree(ops, package) {
        assert d == t;
        forall n | 0 <= n <= |package| ensures DirectResult(ops, package[..n]) == TransferResult(ops, package[..n]) {
          if n > 0 {
            assert DirectResult(d, rest[..n - 1]) == TransferResult(d, rest[..n - 1]);
          }
        }
      }
    }
  }

  /** A package changes nothing exactly when no entry would, were it alone. */
  lemma {:induction false} SettledIff(ops: Ops, package: Package)
    ensures !Changed(DirectCell, ops, package) <==>
            forall i :: 0 <= i < |package| ==> !Changes(CellAt(ops, package[i].slot), package[i])
    ensures !Changed(DirectCell, ops, package) ==> DirectResult(ops, package) == ops
    decreases |package|
  {
    if package != [] && !Changes(CellAt(ops, package[0].slot), package[0]) {
      SameOps(Step(DirectCell, ops, package[0]), ops);
      assert package == [package[0]] + package[1..];
      SettledIff(ops, package[1..]);
    }
  }

  /** Another entry is written to the slot later. */
  predicate Overwritten(package: Package, i: nat)
    requires i < |package|
  {
    !Skipped(package[i]) && LastOn(package, package[i].slot) != Some(i)
  }

  /**
   Applying a package a second time says that nothing changes, and changes nothing, exactly when
   the entries that were overwritten ask for nothing else; so always if the slots are distinct.
   */
  lemma SecondApplyChangesNothing(ops: Ops, package: Package)
    ensures var once := DirectResult(ops, package);
            !Changed(DirectCell, once, package) <==>
            forall i :: 0 <= i < |package| && Overwritten(package, i) ==> !Changes(CellAt(once, package[i].slot), package[i])
    ensures var once := DirectResult(ops, package);
            !Changed(DirectCell, once, package) ==> DirectResult(once, package) == once
    ensures var once := DirectResult(ops, package);
            DistinctSlots(package) ==> DirectResult(once, package) == once && !Changed(DirectCell, once, package)
  {
    var once := DirectResult(ops, package);
    SettledIff(once, package);
    forall i | 0 <= i < |package| && !Overwritten(package, i) ensures !Changes(CellAt(once, package[i].slot), package[i]) {
      if !Skipped(package[i]) {
        RunLast(DirectCell, ops, package, package[i].slot);
        WrittenIsSettled(CellAt(DirectResult(ops, package[..i]), package[i].slot), package[i]);
      }
    }
  }

  // ---------------------------------------------------------------- undo

  function UndoOne(ops: Ops, tx: EditTransaction): Ops {
    Put(ops, tx.slot, Backward(CellAt(ops, tx.slot), tx))
  }

  /** The transactions of a package, in order. */
  function Transactions(ops: Ops, package: Package): seq<EditTransaction>
    decreases |package|
  {
    if package == [] then []
    else
      var e := package[0];
      var rest := Transactions(Step(TransferCell, ops, e), package[1..]);
      if Changes(CellAt(ops, e.slot), e) then [Recorded(CellAt(ops, e.slot), e)] + rest else rest
  }

  /** The pipeline after undoing the transactions, the last one first. */
  function UndoAll(ops: Ops, txs: seq<EditTransaction>): Ops
    decreases |txs|
  {
    if txs == [] then ops else UndoOne(UndoAll(ops, txs[1..]), txs[0])
  }

  /** The last transaction goes first, as UndoLastTransaction takes it. */
  lemma {:induction false} UndoFromTheEnd(ops: Ops, txs: seq<EditTransaction>)
    requires txs != []
    ensures UndoAll(ops, txs) == UndoAll(UndoOne(ops, txs[|txs| - 1]), txs[..|txs| - 1])
    decreases |txs|
  {
    if |txs| > 1 {
      assert txs[1..][..|txs| - 2] == txs[..|txs| - 1][1..];
      UndoFromTheEnd(ops, txs[1..]);
    }
  }

  function RedoOne(ops: Ops, tx: EditTransaction): Ops {
    Put(ops, tx.slot, Forward(CellAt(ops, tx.slot), tx))
  }

  function RedoAll(ops: Ops, txs: seq<EditTransaction>): Ops
    decreases |txs|
  {
    if txs == [] then ops else RedoAll(RedoOne(ops, txs[0]), txs[1..])
  }

  function Undone(ops: Ops, package: Package): Ops {
    UndoAll(TransferResult(ops, package), Transactions(ops, package))
  }

  lemma UndoneStep(ops: Ops, package: Package)
    requires package != []
    ensures var e, rest := package[0], Undone(Step(TransferCell, ops, package[0]), package[1..]);
            Undone(ops, package) == if Changes(CellAt(ops, e.slot), e) then UndoOne(rest, Recorded(CellAt(ops, e.slot), e)) else rest
  {
    var e := package[0];
    var txs := Transactions(Step(TransferCell, ops, e), package[1..]);
    if Changes(CellAt(ops, e.slot), e) {
      assert ([Recorded(CellAt(ops, e.slot), e)] + txs)[1..] == txs;
    }
  }

  // ------------------------------------------- undo, one slot at a time

  /** What undoing the package leaves in a slot that held `c`. */
  function UndoneIn(c: Cell, package: Package, s: Slot): Cell
    decreases |package|
  {
    if package == [] then c
    else if package[0].slot == s && Changes(c, package[0]) then
      Backward(UndoneIn(Forward(c, Recorded(c, package[0])), package[1..], s), Recorded(c, package[0]))
    else UndoneIn(c, package[1..], s)
  }

  lemma {:induction false} UndoneInSlot(ops: Ops, package: Package, s: Slot)
    ensures CellAt(Undone(ops, package), s) == UndoneIn(CellAt(ops, s), package, s)
    decreases |package|
  {
    if package != [] {
      UndoneStep(ops, package);
      UndoneInSlot(Step(TransferCell, ops, package[0]), package[1..], s);
    }
  }

  /** Undoing never removes an operator, never makes its parameters null, and gives one without parameters its flag back. */
  lemma {:induction false} UndoneKeeps(c: Cell, package: Package, s: Slot)
    ensures c.Some? ==> UndoneIn(c, package, s).Some?
    ensures c.Some? && !c.value.params.Null? ==> !UndoneIn(c, package, s).value.params.Null?
    ensures c.Some? && c.value.params.Null? ==> UndoneIn(c, package, s).value.enabled == c.value.enabled
    decreases |package|
  {
    if package != [] {
      var e := package[0];
      if e.slot == s && Changes(c, e) {
        UndoneKeeps(Forward(c, Recorded(c, e)), package[1..], s);
      } else {
        UndoneKeeps(c, package[1..], s);
      }
    }
  }

  /**
   The first entry that changes a slot with parameters decides: they must not contradict the
   operator's being enabled.  A slot without parameters must not be given any by an entry.
   */
  predicate Restorable(c: Cell, package: Package, s: Slot)
    decreases |package|
  {
    if package == [] then true
    else if package[0].slot != s || !Changes(c, package[0]) then Restorable(c, package[1..], s)
    else if c.Some? && !c.value.params.Null? then c.value.enabled ==> Enabling(s.op, c.value.params)
    else Effective(c, package[0]).Null? && Restorable(TransferCell(c, package[0]), package[1..], s)
  }

  lemma {:induction false} RestorableIff(c: Cell, package: Package, s: Slot)
    ensures UndoneIn(c, package, s) == c <==> Restorable(c, package, s)
    decreases |package|
  {
    if package != [] {
      var e := package[0];
      if e.slot == s && Changes(c, e) {
        UndoneKeeps(Forward(c, Recorded(c, e)), package[1..], s);
        RestorableIff(Forward(c, Recorded(c, e)), package[1..], s);
      } else {
        RestorableIff(c, package[1..], s);
      }
    }
  }

  /** For every package, undoing everything restores the pipeline exactly when every slot can be restored. */
  lemma UndoRestores(ops: Ops, package: Package)
    ensures Undone(ops, package) == ops <==> forall s :: Restorable(CellAt(ops, s), package, s)
  {
    forall s ensures CellAt(Undone(ops, package), s) == CellAt(ops, s) <==> Restorable(CellAt(ops, s), package, s) {
      UndoneInSlot(ops, package, s);
      RestorableIff(CellAt(ops, s), package, s);
    }
    if forall s :: Restorable(CellAt(ops, s), package, s) {
      SameOps(Undone(ops, package), ops);
    }
  }

  // ------------------------------------------------------- counterexamples

  const EXAMPLE_SLOT := Slot(Stage(0), Other(0))
  const SWITCHED_OFF := Entry(EXAMPLE_SLOT, true, false, Obj(map["enabled" := Bool(false)]))

  /** An entry that is enabled while its parameters say otherwise: the two ways end differently. */
  lemma EnabledAgainstItsParameters()
    ensures DirectResult(map[], [SWITCHED_OFF]) != TransferResult(map[], [SWITCHED_OFF])
    ensures Changed(TransferCell, TransferResult(map[], [SWITCHED_OFF]), [SWITCHED_OFF])
  {
    var params := SWITCHED_OFF.params;
    assert "enabled" in params.fields && params.fields["enabled"] == Bool(false);
    assert EmbeddedEnabled(params) == Some(false);
    RunSnoc(DirectCell, map[], [SWITCHED_OFF]);
    RunSnoc(TransferCell, map[], [SWITCHED_OFF]);
    assert CellAt(DirectResult(map[], [SWITCHED_OFF]), EXAMPLE_SLOT) == Some(OpState(params, true));
    assert CellAt(TransferResult(map[], [SWITCHED_OFF]), EXAMPLE_SLOT) == Some(OpState(params, false));
  }

  const NO_PARAMETERS := Obj(map[])
  const NEW_OPERATOR := Entry(EXAMPLE_SLOT, true, false, NO_PARAMETERS)

  /** An operator that was not there stays behind, disabled, when its addition is undone. */
  lemma AdditionIsNotUndone()
    ensures Undone(map[], [NEW_OPERATOR]) == map[EXAMPLE_SLOT := OpState(NO_PARAMETERS, false)]
  {
    var left := map[EXAMPLE_SLOT := OpState(NO_PARAMETERS, false)];
    forall s ensures CellAt(Undone(map[], [NEW_OPERATOR]), s) == CellAt(left, s) {
      UndoneInSlot(map[], [NEW_OPERATOR], s);
      assert [NEW_OPERATOR][1..] == [];
    }
    SameOps(Undone(map[], [NEW_OPERATOR]), left);
  }

  // ------------------------------------------------------- in-place forms

  class PipelineExecutor {
    var ops: Ops

    constructor (ops: Ops)
      ensures this.ops == ops
    {
      this.ops := ops;
    }

    method SetOperator(s: Slot, params: Json)
      modifies this
      ensures ops == Put(old(ops), s, SetOp(CellAt(old(ops), s), params))
    {
      if s !in ops {
        ops := ops[s := OpState(params, true)];
      } else {
        if ops[s].params == params {
          return;
        }
        ops := ops[s := ops[s].(params := params)];
      }
    }

    method EnableOperator(s: Slot, enabled: bool)
      modifies this
      ensures ops == Put(old(ops), s, EnableOp(CellAt(old(ops), s), enabled))
    {
      if s in ops {
        ops := ops[s := ops[s].(enabled := enabled)];
      } else {
        assert ops - {s} == ops;
      }
    }
  }

  method ApplyOperatorState(pipeline: PipelineExecutor, s: Slot, params: Json, enabled: bool)
    modifies pipeline
    ensures pipeline.ops == Put(old(pipeline.ops), s,
              EnableOp(if params.Null? then CellAt(old(pipeline.ops), s) else SetOp(CellAt(old(pipeline.ops), s), params), enabled))
  {
    if !params.Null? {
      pipeline.SetOperator(s, params);
    }
    pipeline.EnableOperator(s, enabled);
  }

  method ApplyForward(tx: EditTransaction, pipeline: PipelineExecutor)
    modifies pipeline
    ensures pipeline.ops == RedoOne(old(pipeline.ops), tx)
  {
    var enabled := tx.afterEnabled && (tx.after.Null? || Enabling(tx.slot.op, tx.after));
    ApplyOperatorState(pipeline, tx.slot, tx.after, enabled);
  }

  method ApplyBackward(tx: EditTransaction, pipeline: PipelineExecutor)
    modifies pipeline
    ensures pipeline.ops == UndoOne(old(pipeline.ops), tx)
  {
    var enabled := tx.beforeEnabled && (tx.before.Null? || Enabling(tx.slot.op, tx.before));
    ApplyOperatorState(pipeline, tx.slot, tx.before, enabled);
  }

  class WorkingVersion {
    var transactions: seq<EditTransaction>
    var cursor: nat

    ghost predicate Valid()
      reads this
    {
      cursor <= |transactions|
    }

    method AppendEditTransaction(tx: EditTransaction)
      requires Valid()
      modifies this
      ensures Valid() && transactions == old(transactions[..cursor]) + [tx] && cursor == |transactions|
    {
      if cursor < |transactions| {
        transactions := transactions[..cursor];
      }
      transactions := transactions + [tx];
      cursor := |transactions|;
    }

    method UndoLastTransaction(pipeline: PipelineExecutor) returns (ok: bool)
      requires Valid()
      modifies this, pipeline
      ensures Valid() && ok == (old(cursor) > 0) && transactions == old(transactions)
      ensures ok ==> cursor == old(cursor) - 1 && pipeline.ops == UndoOne(old(pipeline.ops), transactions[cursor])
      ensures !ok ==> cursor == old(cursor) && pipeline.ops == old(pipeline.ops)
    {
      if cursor == 0 {
        return false;
      }
      ApplyBackward(transactions[cursor - 1], pipeline);
      cursor := cursor - 1;
      return true;
    }

    method RedoNextTransaction(pipeline: PipelineExecutor) returns (ok: bool)
      requires Valid()
      modifies this, pipeline
      ensures Valid() && transactions == old(transactions)
      ensures ok == (old(cursor) < |transactions|)
      ensures ok ==> cursor == old(cursor) + 1
                     && pipeline.ops == RedoOne(old(pipeline.ops), transactions[old(cursor)])
      ensures !ok ==> cursor == old(cursor) && pipeline.ops == old(pipeline.ops)
    {
      if cursor >= |transactions| {
        return false;
      }
      ApplyForward(transactions[cursor], pipeline);
      cursor := cursor + 1;
      return true;
    }

    /** Going back undoes the transactions after the target, the last one first; going on redoes them in order. */
    method MoveCursorTo(target: nat, pipeline: PipelineExecutor)
      requires Valid()
      modifies this, pipeline
      ensures Valid() && transactions == old(transactions)
      ensures cursor == if target < |transactions| then target else |transactions|
      ensures target <= old(cursor) ==>
                pipeline.ops == UndoAll(old(pipeline.ops), transactions[target..old(cursor)])
      ensures old(cursor) <= target ==>
                pipeline.ops == RedoAll(old(pipeline.ops), transactions[old(cursor)..cursor])
    {
      var txs, start := transactions, cursor;
      var goal := if target < |txs| then target else |txs|;
      while cursor > goal
        invariant Valid() && transactions == txs
        invariant goal <= cursor <= start || (cursor == start <= goal)
        invariant goal <= start ==>
                    UndoAll(pipeline.ops, txs[goal..cursor]) == UndoAll(old(pipeline.ops), txs[goal..start])
        invariant start <= goal ==> pipeline.ops == old(pipeline.ops)
      {
        UndoFromTheEnd(pipeline.ops, txs[goal..cursor]);
        assert txs[goal..cursor][..cursor - goal - 1] == txs[goal..cursor - 1];
        var _ := UndoLastTransaction(pipeline);
      }
      while cursor < goal
        invariant Valid() && transactions == txs && cursor <= goal
        invariant goal <= start ==> cursor == goal && pipeline.ops == UndoAll(old(pipeline.ops), txs[goal..start])
        invariant start <= goal ==> start <= cursor
        invariant start <= goal ==> RedoAll(pipeline.ops, txs[cursor..goal]) == RedoAll(old(pipeline.ops), txs[start..goal])
      {
        assert txs[cursor..goal][1..] == txs[cursor + 1..goal];
        var _ := RedoNextTransaction(pipeline);
      }
    }
  }

  /** The parameters an entry leads to, computed in place on a copy. */
  method EffectiveParams(current: Cell, e: Entry) returns (params: Json)
    ensures params == Effective(current, e)
  {
    params := e.params;
    if current.Some? {
      if e.merge {
        params := MergeJsonObject(current.value.params, e.params);
      }
      if e.slot.op.Odt? {
        params := PreserveDRTParams(params, current.value.params);
      }
    }
  }

  method BuildTransferEdit(target: PipelineExecutor, e: Entry) returns (edit: Option<EditTransaction>)
    ensures var c := CellAt(target.ops, e.slot);
            edit == if Changes(c, e) then Some(Recorded(c, e)) else None
  {
    if e.slot.stage.StageCount? || e.slot.op.Unknown? || e.slot.op.Resize? {
      return None;
    }
    var current := CellAt(target.ops, e.slot);
    var params := EffectiveParams(current, e);
    if current.None? {
      return Some(EditTransaction(Add, e.slot, Null, params, false, e.enabled));
    }
    if current.value.enabled == e.enabled && current.value.params == params {
      return None;
    }
    return Some(EditTransaction(Edit, e.slot, current.value.params, params, current.value.enabled, e.enabled));
  }

  /** An entry that changes its slot is applied and recorded as a transaction. */
  method TransferEntry(target: PipelineExecutor, version: WorkingVersion, e: Entry) returns (edit: Option<EditTransaction>)
    requires version.Valid()
    modifies target, version
    ensures version.Valid() && target.ops == Step(TransferCell, old(target.ops), e)
    ensures var c := CellAt(old(target.ops), e.slot);
            edit == if Changes(c, e) then Some(Recorded(c, e)) else None
    ensures edit.Some? ==> version.transactions == old(version.transactions[..version.cursor]) + [edit.value]
                           && version.cursor == |version.transactions|
    ensures edit.None? ==> version.transactions == old(version.transactions) && version.cursor == old(version.cursor)
  {
    edit := BuildTransferEdit(target, e);
    if edit.Some? {
      ApplyForward(edit.value, target);
      version.AppendEditTransaction(edit.value);
    } else {
      SameOps(Step(TransferCell, target.ops, e), target.ops);
    }
  }

  method ApplyAsTransactions(target: PipelineExecutor, version: WorkingVersion, package: Package) returns (changed: bool)
    requires version.Valid()
    modifies target, version
    ensures version.Valid()
    ensures target.ops == TransferResult(old(target.ops), package)
    ensures changed == Changed(TransferCell, old(target.ops), package)
    ensures changed == (Transactions(old(target.ops), package) != [])
    ensures changed ==> version.transactions == old(version.transactions[..version.cursor]) + Transactions(old(target.ops), package)
    ensures changed ==> version.cursor == |version.transactions|
    ensures !changed ==> version.transactions == old(version.transactions) && version.cursor == old(version.cursor)
  {
    changed := false;
    ghost var before := version.transactions[..version.cursor];
    ghost var recorded: seq<EditTransaction> := [];
    for i := 0 to |package|
      invariant version.Valid()
      invariant TransferResult(target.ops, package[i..]) == TransferResult(old(target.ops), package)
      invariant recorded + Transactions(target.ops, package[i..]) == Transactions(old(target.ops), package)
      invariant changed || Changed(TransferCell, target.ops, package[i..]) <==> Changed(TransferCell, old(target.ops), package)
      invariant changed == (recorded != [])
      invariant changed ==> version.transactions == before + recorded && version.cursor == |version.transactions|
      invariant !changed ==> version.transactions == old(version.transactions) && version.cursor == old(version.cursor)
    {
      var e := package[i];
      assert package[i..][0] == e && package[i..][1..] == package[i + 1..];
      var edit := TransferEntry(target, version, e);
      if edit.Some? {
        recorded := recorded + [edit.value];
        changed := true;
      }
    }
  }

  method Apply(target: PipelineExecutor, package: Package) returns (changed: bool)
    modifies target
    ensures target.ops == DirectResult(old(target.ops), package)
    ensures changed == Changed(DirectCell, old(target.ops), package)
  {
    changed := false;
    for i := 0 to |package|
      invariant DirectResult(target.ops, package[i..]) == DirectResult(old(target.ops), package)
      invariant changed || Changed(DirectCell, target.ops, package[i..]) <==> Changed(DirectCell, old(target.ops), package)
    {
      var e := package[i];
      ghost var ops := target.ops;
      assert package[i..][0] == e && package[i..][1..] == package[i + 1..];
      if e.slot.stage.StageCount? || e.slot.op.Unknown? || e.slot.op.Resize? {
        continue;
      }
      var current := CellAt(target.ops, e.slot);
      var params := EffectiveParams(current, e);
      var entryChanged := current.None? || current.value.enabled != e.enabled || current.value.params != params;
      if !entryChanged {
        SameOps(Step(DirectCell, ops, e), ops);
        continue;
      }
      target.SetOperator(e.slot, params);
      target.EnableOperator(e.slot, e.enabled);
      SameOps(Step(DirectCell, ops, e), target.ops);
      changed := true;
    }
  }
}
