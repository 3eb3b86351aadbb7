/** Whole runs of the pipeline service: when the storage ends up with every edit, and when not. */
module PipelineRuns {
  import opened Wrappers
  import opened Lru
  import opened EvictionCycle
  import opened PipelineService

  const ALWAYS: nat -> bool := _ => true
  const NEVER: nat -> bool := _ => false

  // ------------------------------------- one user a file, locks always had

  datatype Command = Load(id: Id) | Edit(id: Id, content: Content) | Save(id: Id) | Delete(id: Id)

  /** A command that does not fit the one user of its file is not given. */
  predicate Fits(held: set<Id>, c: Command) {
    match c
    case Load(id) => id !in held
    case Delete(id) => id !in held
    case Save(id) => id in held
    case Edit(id, _) => id in held
  }

  function HeldAfter(held: set<Id>, c: Command): set<Id> {
    match c
    case Load(id) => held + {id}
    case Save(id) => held - {id}
    case _ => held
  }

  /** The files in use. */
  function Held(commands: seq<Command>): set<Id> {
    if commands == [] then {} else HeldAfter(Held(commands[..|commands| - 1]), commands[|commands| - 1])
  }

  function EditedAfter(contents: map<Id, Content>, held: set<Id>, c: Command): map<Id, Content> {
    match c
    case Edit(id, content) => if id in held then contents[id := content] else contents
    case Delete(id) => if id in held then contents else contents - {id}
    case _ => contents
  }

  /** What the users made of the files last. */
  function Edited(initial: map<Id, Content>, commands: seq<Command>): map<Id, Content> {
    if commands == [] then initial
    else
      var before := commands[..|commands| - 1];
      EditedAfter(Edited(initial, before), Held(before), commands[|commands| - 1])
  }

  /** The held files have one pin, all others none. */
  ghost predicate InUse(s: PipelineMgmtService, held: set<Id>)
    reads s`loaded, s.loaded.Values`pinCount
  {
    held <= s.loaded.Keys && forall id :: id in s.loaded ==> s.loaded[id].pinCount == if id in held then 1 else 0
  }

  /** With the render locks free no entry is given up. */
  lemma NeverGivenUp(s: PipelineMgmtService, id: Id, pinned: set<Id>)
    requires s.Listed({}) && s.Full(id) && pinned <= s.loaded.Keys
    ensures !Outcome(s.lru.keys + [id], pinned, s.loaded.Keys, ALWAYS).GivenUp?
  {
    var order := s.lru.keys + [id];
    var j := Victim(order, pinned);
    NextCycle(s.lru.keys, id);
    AttemptsSuffice(order, j, s.loaded.Keys);
    assert ALWAYS(j);
  }

  /** With the render locks free a load gives up nothing, so the files stay in order. */
  method FairLoad(s: PipelineMgmtService, id: Id) returns (g: PipelineGuard, ghost e: Eviction)
    requires s.Listed({}) && s.Keyed() && s.FilesOk() && (id in s.lru.keys || !s.Unwritten(id))
    modifies s`loaded, s`live, s`storage, s.lru, if id in s.loaded then {s.loaded[id]} else {}
    ensures s.Listed({}) && s.Keyed() && s.FilesOk()
    ensures s.loaded == Remaining(old(s.loaded), e)[id := g] && s.live == old(s.live)[id := g.pipeline]
    ensures e.Erased? ==> e.id in old(s.loaded) && old(s.loaded[e.id].pinCount) == 0
    ensures g.pinCount == if id in old(s.lru.keys) then old(s.loaded[id].pinCount) + 1 else 1
    ensures fresh(g) || (id in old(s.loaded) && g == old(s.loaded)[id])
    ensures fresh(g.pipeline) || (id in old(s.live) && g.pipeline == old(s.live)[id])
  {
    if s.Full(id) {
      NeverGivenUp(s, id, s.Pinned());
    }
    assert id in s.lru.keys ==> id in s.loaded;
    assert s.FileOk(id);
    g, e := s.LoadPipeline(id, ALWAYS);
  }

  /** A load or a save changes the pins of its own file only, and no pinned entry is erased. */
  twostate lemma OthersStay(s: PipelineMgmtService, new held: set<Id>, new now: set<Id>,
                            new id: Id, new g: PipelineGuard, new e: Eviction)
    requires old(InUse(s, held)) && now - {id} == held - {id} && (id in now ==> id in s.loaded)
    requires s.loaded == Remaining(old(s.loaded), e)[id := g] || s.loaded == old(s.loaded)
    requires e.Erased? && e.id != id ==> e.id in old(s.loaded) && old(s.loaded[e.id].pinCount) == 0
    requires forall x :: x in old(s.loaded) && x != id ==> old(s.loaded)[x].pinCount == old(s.loaded[x].pinCount)
    requires id in s.loaded ==> s.loaded[id].pinCount == if id in now then 1 else 0
    ensures InUse(s, now)
  {
    forall x ensures x != id ==> (x in now <==> x in held) {
      assert x in now - {id} <==> x in held - {id};
    }
    forall x | x in s.loaded && x != id ensures s.loaded[x].pinCount == if x in now then 1 else 0 {
      assert s.loaded[x] == old(s.loaded)[x];
    }
  }

  method UseLoad(s: PipelineMgmtService, id: Id, ghost held: set<Id>)
    requires s.Listed({}) && s.Keyed() && s.FilesOk() && InUse(s, held) && id !in held
    modifies s`loaded, s`live, s`storage, s.lru, if id in s.loaded then {s.loaded[id]} else {}
    ensures s.Listed({}) && s.Keyed() && s.FilesOk() && InUse(s, held + {id})
    ensures forall x :: x in s.loaded ==> fresh(s.loaded[x]) || (x in old(s.loaded) && s.loaded[x] == old(s.loaded)[x])
    ensures forall x :: x in s.live ==> fresh(s.live[x]) || (x in old(s.live) && s.live[x] == old(s.live)[x])
  {
    assert id !in s.lru.keys ==> !s.Unwritten(id) by {
      assert s.FileOk(id);
    }
    var g;
    ghost var e;
    g, e := FairLoad(s, id);
    OthersStay(s, held, held + {id}, id, g, e);
  }

  method FairSave(s: PipelineMgmtService, g: PipelineGuard) returns (ghost e: Eviction)
    requires s.Listed({}) && s.Keyed() && s.FilesOk() && s.Owns(g)
    modifies s`loaded, s`live, s`storage, s.lru, g
    ensures s.Listed({}) && s.Keyed() && s.FilesOk()
    ensures s.loaded == Remaining(old(s.loaded), e)[g.id := g] || s.loaded == old(s.loaded)
    ensures s.live == old(s.live)[g.id := g.pipeline] && g.id in s.loaded && s.loaded[g.id] == g
    ensures e.Erased? ==> e.id in old(s.loaded) && (old(s.loaded[e.id].pinCount) == 0 || e.id == g.id)
    ensures g.pinCount == if old(g.pinCount) == 0 then 0 else old(g.pinCount) - 1
  {
    if g.LastDirtyPin() && s.Full(g.id) {
      NeverGivenUp(s, g.id, s.Pinned() - {g.id});
    }
    e := s.SavePipeline(g, ALWAYS);
  }

  method UseSave(s: PipelineMgmtService, id: Id, ghost held: set<Id>)
    requires s.Listed({}) && s.Keyed() && s.FilesOk() && InUse(s, held) && id in held
    modifies s`loaded, s`live, s`storage, s.lru, s.loaded[id]
    ensures s.Listed({}) && s.Keyed() && s.FilesOk() && InUse(s, held - {id})
    ensures forall x :: x in s.loaded ==> x in old(s.loaded) && s.loaded[x] == old(s.loaded)[x]
    ensures s.live == old(s.live)
  {
    var g := s.loaded[id];
    assert id in s.live && s.live[id] == g.pipeline by {
      assert s.FileOk(id);
    }
    ghost var e := FairSave(s, g);
    OthersStay(s, held, held - {id}, id, g, e);
  }

  method UseEdit(s: PipelineMgmtService, id: Id, content: Content, ghost held: set<Id>)
    requires s.Listed({}) && s.Keyed() && s.FilesOk() && InUse(s, held) && id in held
    modifies s`committed, s.loaded[id], s.loaded[id].pipeline
    ensures s.Listed({}) && s.Keyed() && s.FilesOk() && InUse(s, held)
    ensures s.committed == old(s.committed)[id := content]
  {
    s.EditPipeline(s.loaded[id], content);
  }

  method UseDelete(s: PipelineMgmtService, id: Id, ghost held: set<Id>)
    requires s.Listed({}) && s.Keyed() && s.FilesOk() && InUse(s, held) && id !in held
    modifies s, s.lru
    ensures s.Listed({}) && s.Keyed() && s.FilesOk() && InUse(s, held)
    ensures s.committed == old(s.committed) - {id} && s.loaded == old(s.loaded) - {id} && s.live == old(s.live) - {id}
  {
    s.DeletePipeline(id);
  }

  // ------------------------------------------------------- the whole run

  method Perform(s: PipelineMgmtService, c: Command, ghost held: set<Id>)
    requires s.Listed({}) && s.Keyed() && s.FilesOk() && InUse(s, held) && Fits(held, c)
    modifies s, s.lru, s.loaded.Values, s.live.Values
    ensures s.Listed({}) && s.Keyed() && s.FilesOk() && InUse(s, HeldAfter(held, c))
    ensures s.committed == EditedAfter(old(s.committed), held, c)
    ensures forall x :: x in s.loaded ==> fresh(s.loaded[x]) || (x in old(s.loaded) && s.loaded[x] == old(s.loaded)[x])
    ensures forall x :: x in s.live ==> fresh(s.live[x]) || (x in old(s.live) && s.live[x] == old(s.live)[x])
  {
    match c
    case Load(id) => UseLoad(s, id, held);
    case Save(id) => UseSave(s, id, held);
    case Edit(id, content) =>
      assert s.FileOk(id);
      UseEdit(s, id, content, held);
    case Delete(id) => UseDelete(s, id, held);
  }

  /**
   Whatever files are loaded, edited, saved and deleted, each by one user at a time and with
   the render locks free, after a final Sync the storage holds the last edit of every file.
   */
  method RunThenSync(initial: map<Id, Content>, commands: seq<Command>) returns (storage: map<Id, Content>)
    ensures storage == Edited(initial, commands)
  {
    var s := new PipelineMgmtService(initial);
    var held: set<Id> := {};
    for i := 0 to |commands|
      invariant fresh(s) && fresh(s.lru) && held == Held(commands[..i])
      invariant forall x :: x in s.loaded ==> fresh(s.loaded[x])
      invariant forall x :: x in s.live ==> fresh(s.live[x])
      invariant s.Listed({}) && s.Keyed() && s.FilesOk() && InUse(s, held)
      invariant s.committed == Edited(initial, commands[..i])
    {
      assert commands[..i + 1][..i] == commands[..i];
      if Fits(held, commands[i]) {
        Perform(s, commands[i], held);
      } else {
        assert HeldAfter(held, commands[i]) == held;
      }
      held := HeldAfter(held, commands[i]);
    }
    assert commands[..|commands|] == commands;
    s.Sync();
    storage := s.storage;
  }

  // ------------------------------------- a run in which an edit is lost

  method LoadUnlisted(s: PipelineMgmtService, id: Id) returns (g: PipelineGuard, ghost e: Eviction)
    requires s.Listed({}) && s.Keyed() && id !in s.lru.keys && !s.Full(id)
    modifies s`loaded, s`live, s`storage, s.lru, if id in s.loaded then {s.loaded[id]} else {}
    ensures s.Listed({}) && s.Keyed() && fresh(g) && g.pinCount == 1 && !g.dirty
    ensures s.loaded == old(s.loaded)[id := g] && s.live == old(s.live)[id := g.pipeline] && s.storage == old(s.storage)
    ensures s.lru.keys == old(s.lru.keys) + [id]
    ensures s.lru.capacity == if |s.loaded| + 1 > DEFAULT_CAPACITY then |s.loaded| - 1 else old(s.lru.capacity)
    ensures if id in old(s.live) then g.pipeline == old(s.live[id]) else fresh(g.pipeline)
  {
    g, e := s.LoadPipeline(id, NEVER);
  }

  /** The files below n are loaded in order; the edited ones are unpinned and dirty, the others pinned and clean. */
  ghost predicate Filled(s: PipelineMgmtService, n: nat, edits: map<Id, Content>)
    reads s, s.lru, s.loaded.Values
  {
    && s.Listed({}) && s.Keyed()
    && s.lru.keys == Numbers(n) && s.lru.capacity == (if n < 16 then 16 else 15)
    && |s.loaded| == n && (forall x: Id :: x in s.loaded <==> x < n)
    && (forall x :: x in s.loaded ==> (s.loaded[x].pinCount == 0 <==> x in edits) && (s.loaded[x].dirty <==> x in edits))
    && s.storage == map[] && s.committed == edits
  }

  method LoadNext(s: PipelineMgmtService, n: nat, ghost edits: map<Id, Content>) returns (g: PipelineGuard)
    requires n < 16 && Filled(s, n, edits) && n !in edits
    modifies s`loaded, s`live, s`storage, s.lru
    ensures Filled(s, n + 1, edits)
    ensures fresh(g) && g.pinCount == 1 && s.loaded == old(s.loaded)[n := g] && s.live == old(s.live)[n := g.pipeline]
    ensures n !in old(s.live) ==> fresh(g.pipeline)
  {
    ghost var e;
    g, e := LoadUnlisted(s, n);
    assert Numbers(n) + [n] == Numbers(n + 1);
  }

  /** The user of file 1 changes it and gives it back. */
  method EditAndSave(s: PipelineMgmtService, g: PipelineGuard, content: Content)
    requires Filled(s, 2, map[]) && s.Owns(g) && g.id == 1 && g.pinCount == 1
    requires 1 in s.live && s.live[1] == g.pipeline
    modifies s, s.lru, g, g.pipeline
    ensures Filled(s, 2, map[1 := content]) && s.loaded == old(s.loaded) && s.live == old(s.live)
    ensures g.pipeline.content == content
  {
    s.EditPipeline(g, content);
    assert Numbers(2) == [0, 1];
    assert s.lru.keys[1] == 1;
    SaveListed(s, g);
    assert [0, 1][1..] == [1] && Without([0, 1], 1) == [0] + Without([1], 1);
  }

  method SaveListed(s: PipelineMgmtService, g: PipelineGuard)
    requires s.Listed({}) && s.Keyed() && s.Owns(g) && g.id in s.lru.keys && g.pinCount == 1 && g.dirty
    requires |s.loaded| < DEFAULT_CAPACITY
    modifies s`loaded, s`live, s`storage, s.lru, g
    ensures s.Listed({}) && s.Keyed() && g.pinCount == 0 && g.dirty
    ensures s.loaded == old(s.loaded) && s.live == old(s.live)[g.id := g.pipeline] && s.storage == old(s.storage)
    ensures s.lru.keys == Touch(old(s.lru.keys), g.id) && s.lru.capacity == old(s.lru.capacity)
  {
    ghost var e := s.SavePipeline(g, NEVER);
    assert old(s.loaded)[g.id := g] == old(s.loaded);
  }

  method TwoFiles() returns (s: PipelineMgmtService, g: PipelineGuard)
    ensures fresh(s) && fresh(s.lru) && Filled(s, 2, map[]) && forall x :: x in s.loaded ==> fresh(s.loaded[x])
    ensures s.Owns(g) && g.id == 1 && g.pinCount == 1 && 1 in s.live && s.live[1] == g.pipeline && fresh(g.pipeline)
  {
    s := new PipelineMgmtService(map[]);
    assert |s.loaded| == 0 && s.loaded.Keys == {};
    g := LoadNext(s, 0, map[]);
    g := LoadNext(s, 1, map[]);
  }

  method EditedAndSaved(content: Content) returns (s: PipelineMgmtService)
    ensures fresh(s) && fresh(s.lru) && Filled(s, 2, map[1 := content]) && forall x :: x in s.loaded ==> fresh(s.loaded[x])
    ensures 1 in s.live && s.live[1].content == content
  {
    var g;
    s, g := TwoFiles();
    EditAndSave(s, g, content);
  }

  lemma OldestIsOne(pinned: set<Id>, entries: set<Id>)
    requires 0 in pinned && 1 !in pinned && 1 in entries
    ensures Outcome(Numbers(16) + [16], pinned, entries, NEVER) == GivenUp(1)
  {
    var order := Numbers(16) + [16];
    assert order[0] == 0 && order[1..][0] == 1;
  }

  /** The next load finds the list full: file 0 is pinned, and file 1 is rendering. */
  method LoadOneMore(s: PipelineMgmtService)
    requires s.Listed({}) && s.Keyed() && s.lru.keys == Numbers(16) && s.Full(16) && 16 !in s.loaded
    requires 0 in s.Pinned() && 1 in s.loaded && s.loaded[1].pinCount == 0
    requires forall x :: x in s.loaded && x != 1 ==> !s.loaded[x].dirty
    modifies s`loaded, s`live, s`storage, s.lru
    ensures s.Listed({}) && s.Keyed() && 1 !in s.lru.keys && |s.lru.keys| < s.lru.capacity
    ensures s.storage == old(s.storage) && 16 in s.loaded && fresh(s.loaded[16])
    ensures forall x :: x in s.loaded && x != 1 ==> !s.loaded[x].dirty
    ensures s.loaded == old(s.loaded)[16 := s.loaded[16]] && s.live == old(s.live)[16 := s.loaded[16].pipeline]
  {
    OldestIsOne(s.Pinned(), s.loaded.Keys);
    var g;
    ghost var e;
    g, e := s.LoadPipeline(16, NEVER);
  }

  /** The entry of a file that is not listed is replaced by a clean one. */
  method ReplaceEntry(s: PipelineMgmtService, id: Id)
    requires s.Listed({}) && s.Keyed() && id in s.loaded && id in s.live && id !in s.lru.keys && !s.Full(id)
    requires forall x :: x in s.loaded && x != id ==> !s.loaded[x].dirty
    modifies s`loaded, s`live, s`storage, s.lru, s.loaded[id]
    ensures s.Listed({}) && s.Keyed() && s.storage == old(s.storage) && s.live == old(s.live)
    ensures id in s.loaded && fresh(s.loaded[id]) && s.loaded == old(s.loaded)[id := s.loaded[id]]
    ensures forall x :: x in s.loaded ==> !s.loaded[x].dirty
  {
    var g;
    ghost var e;
    g, e := LoadUnlisted(s, id);
  }

  /** File 1 leaves the list and is loaded again: its clean guard replaces the dirty one. */
  method LoseEntry(s: PipelineMgmtService)
    requires s.Listed({}) && s.Keyed() && s.lru.keys == Numbers(16) && s.Full(16) && 16 !in s.loaded
    requires 0 in s.Pinned() && 1 in s.loaded && s.loaded[1].pinCount == 0 && 1 in s.live
    requires forall x :: x in s.loaded && x != 1 ==> !s.loaded[x].dirty
    modifies s`loaded, s`live, s`storage, s.lru, s.loaded[1]
    ensures s.Listed({}) && s.Keyed() && s.storage == old(s.storage) && 1 in s.live && s.live[1] == old(s.live)[1]
    ensures forall x :: x in s.loaded ==>
              !s.loaded[x].dirty && (fresh(s.loaded[x]) || (x in old(s.loaded) && s.loaded[x] == old(s.loaded)[x]))
  {
    LoadOneMore(s);
    ReplaceEntry(s, 1);
  }

  lemma FilledIsFull(s: PipelineMgmtService, edits: map<Id, Content>)
    requires Filled(s, 16, edits) && edits.Keys == {1}
    ensures s.Full(16) && 16 !in s.loaded && 0 in s.Pinned() && 1 in s.loaded && s.loaded[1].pinCount == 0
  {
    assert s.lru.keys[15] == 15;
    assert 0 in s.loaded && 1 in s.loaded;
  }

  /** The files up to 15 are loaded, and then the entry of file 1 is lost. */
  method FillAndLose(s: PipelineMgmtService, n: nat, ghost edits: map<Id, Content>)
    requires 2 <= n <= 16 && Filled(s, n, edits) && edits.Keys == {1} && 1 in s.live
    modifies s`loaded, s`live, s`storage, s.lru, s.loaded[1]
    ensures s.Listed({}) && s.Keyed() && s.storage == map[] && 1 in s.live && s.live[1] == old(s.live)[1]
    ensures forall x :: x in s.loaded ==>
              !s.loaded[x].dirty && (fresh(s.loaded[x]) || (x in old(s.loaded) && s.loaded[x] == old(s.loaded)[x]))
    decreases 16 - n
  {
    if n < 16 {
      var _ := LoadNext(s, n, edits);
      FillAndLose(s, n + 1, edits);
    } else {
      FilledIsFull(s, edits);
      LoseEntry(s);
    }
  }

  method SyncClean(s: PipelineMgmtService)
    requires s.Listed({}) && s.Keyed() && forall x :: x in s.loaded ==> !s.loaded[x].dirty
    modifies s`storage, s.loaded.Values`dirty
    ensures s.storage == old(s.storage)
  {
    assert s.DirtyContents() == map[];
    s.Sync();
  }

  /**
   Sixteen files are loaded; file 1 is edited and saved, and still renders when a further load
   needs its place.  It leaves the list, the next load replaces its dirty entry by a clean one,
   and Sync does not write the edit.
   */
  method LostEdit(content: Content) returns (s: PipelineMgmtService)
    ensures fresh(s) && s.committed == map[1 := content] && s.storage == map[]
    ensures 1 in s.live && s.live[1].content == content
  {
    s := EditedAndSaved(content);
    FillAndLose(s, 2, map[1 := content]);
    SyncClean(s);
  }
}
