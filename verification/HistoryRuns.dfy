/** Whole runs of the history service: when the storage ends up with every change, and when not. */
module HistoryRuns {
  import opened Wrappers
  import opened Lru
  import opened EvictionCycle
  import opened HistoryService

  // ------------------------------------------------- one owner for a file

  datatype Command =
    | Load(id: Id, alive: bool)
    | Commit(id: Id, edit: Content -> Content)
    | Update(id: Id, edit: Content -> Content)
    | Save(id: Id)
    | Delete(id: Id)

  /** A command that does not fit the one owner of its file is not given. */
  predicate Fits(held: set<Id>, c: Command) {
    match c
    case Load(id, _) => id !in held
    case Delete(_) => true
    case _ => c.id in held
  }

  function HeldAfter(held: set<Id>, c: Command): set<Id> {
    match c
    case Load(id, _) => held + {id}
    case Save(id) => held - {id}
    case Delete(id) => held - {id}
    case _ => held
  }

  /** The files that have an owner. */
  function Held(commands: seq<Command>): set<Id> {
    if commands == [] then {} else HeldAfter(Held(commands[..|commands| - 1]), commands[|commands| - 1])
  }

  /** The content an edit finds: that of a new history if the file has none. */
  function ContentOf(contents: map<Id, Content>, id: Id): Content {
    if id in contents then contents[id] else EMPTY
  }

  function EditedAfter(contents: map<Id, Content>, held: set<Id>, c: Command): map<Id, Content> {
    match c
    case Commit(id, edit) => if id in held then contents[id := edit(ContentOf(contents, id))] else contents
    case Update(id, edit) => if id in held then contents[id := edit(ContentOf(contents, id))] else contents
    case Delete(id) => contents - {id}
    case _ => contents
  }

  /** What the owners made of the histories last. */
  function Edited(initial: map<Id, Content>, commands: seq<Command>): map<Id, Content> {
    if commands == [] then initial
    else
      var before := commands[..|commands| - 1];
      EditedAfter(Edited(initial, before), Held(before), commands[|commands| - 1])
  }

  method UseLoad(s: EditHistoryMgmtService, id: Id, alive: bool)
    requires s.Valid() && s.FilesOk() && id !in s.held
    modifies s`guards, s`live, s`storage, s`held, s.lru, s.guards.Values
    ensures s.Valid() && s.FilesOk() && s.held == old(s.held) + {id}
    ensures forall x :: x in s.guards ==> fresh(s.guards[x]) || (x in old(s.guards) && s.guards[x] == old(s.guards)[x])
    ensures forall x :: x in s.live ==> fresh(s.live[x]) || (x in old(s.live) && s.live[x] == old(s.live)[x])
  {
    assert !s.Unwritten(id) by {
      assert s.FileOk(id);
    }
    var g;
    ghost var victim;
    g, victim := s.LoadHistory(id, alive);
  }

  /** The history that the owner of a file has. */
  lemma OwnersHistory(s: EditHistoryMgmtService, id: Id)
    requires s.FilesOk() && id in s.held
    ensures id in s.guards && id in s.live && s.Owns(s.guards[id]) && s.guards[id].fileId == id
    ensures s.guards[id].history == s.live[id] && s.live[id].content == ContentOf(s.committed, id)
  {
    assert s.FileOk(id);
  }

  method UseCommit(s: EditHistoryMgmtService, id: Id, edit: Content -> Content)
    requires s.Valid() && s.FilesOk() && id in s.held
    modifies s`guards, s`storage, s`committed, s.lru, s.guards.Values, s.live.Values
    ensures s.Valid() && s.FilesOk()
    ensures s.committed == old(s.committed)[id := edit(ContentOf(old(s.committed), id))]
    ensures forall x :: x in s.guards ==> x in old(s.guards) && s.guards[x] == old(s.guards)[x]
  {
    OwnersHistory(s, id);
    ghost var victim := s.CommitVersion(s.guards[id], edit);
  }

  method UseUpdate(s: EditHistoryMgmtService, id: Id, edit: Content -> Content)
    requires s.Valid() && s.FilesOk() && id in s.held
    modifies s`committed, s.guards.Values, s.live.Values
    ensures s.Valid() && s.FilesOk()
    ensures s.committed == old(s.committed)[id := edit(ContentOf(old(s.committed), id))]
  {
    OwnersHistory(s, id);
    s.UpdateVersion(s.guards[id], edit);
  }

  method UseSave(s: EditHistoryMgmtService, id: Id)
    requires s.Valid() && s.FilesOk() && id in s.held
    modifies s`guards, s`live, s`storage, s`held, s.lru, s.guards.Values
    ensures s.Valid() && s.FilesOk() && s.held == old(s.held) - {id} && s.live == old(s.live)
    ensures forall x :: x in s.guards ==> x in old(s.guards) && s.guards[x] == old(s.guards)[x]
  {
    OwnersHistory(s, id);
    ghost var victim := s.SaveHistory(s.guards[id]);
  }

  // ------------------------------------------------------- the whole run

  method Perform(s: EditHistoryMgmtService, c: Command)
    requires s.Valid() && s.FilesOk() && Fits(s.held, c)
    modifies s, s.lru, s.guards.Values, s.live.Values
    ensures s.Valid() && s.FilesOk() && s.held == HeldAfter(old(s.held), c)
    ensures s.committed == EditedAfter(old(s.committed), old(s.held), c)
    ensures forall x :: x in s.guards ==> fresh(s.guards[x]) || (x in old(s.guards) && s.guards[x] == old(s.guards)[x])
    ensures forall x :: x in s.live ==> fresh(s.live[x]) || (x in old(s.live) && s.live[x] == old(s.live)[x])
  {
    match c
    case Load(id, alive) => UseLoad(s, id, alive);
    case Commit(id, edit) => UseCommit(s, id, edit);
    case Update(id, edit) => UseUpdate(s, id, edit);
    case Save(id) => UseSave(s, id);
    case Delete(id) => s.DeleteHistory(id);
  }

  /**
   Whatever histories are loaded, committed to, updated, saved and deleted, each by one owner
   at a time, after a final Sync the storage holds the last content of every history.
   */
  method RunThenSync(initial: map<Id, Content>, commands: seq<Command>) returns (storage: map<Id, Content>)
    ensures storage == Edited(initial, commands)
  {
    var s := new EditHistoryMgmtService(initial);
    var held: set<Id> := {};
    for i := 0 to |commands|
      invariant fresh(s) && fresh(s.lru) && held == s.held == Held(commands[..i])
      invariant forall x :: x in s.guards ==> fresh(s.guards[x])
      invariant forall x :: x in s.live ==> fresh(s.live[x])
      invariant s.Valid() && s.FilesOk() && s.committed == Edited(initial, commands[..i])
    {
      assert commands[..i + 1][..i] == commands[..i];
      if Fits(held, commands[i]) {
        Perform(s, commands[i]);
        held := HeldAfter(held, commands[i]);
      } else {
        assert HeldAfter(held, commands[i]) == held;
      }
    }
    assert commands[..|commands|] == commands;
    s.Sync();
    storage := s.storage;
  }

  // ------------------------------- a run in which a dirty guard is replaced

  /** The files below n are loaded in order and held, and nothing was changed. */
  ghost predicate Filled(s: EditHistoryMgmtService, n: nat)
    reads s, s.lru, s.guards.Values
  {
    && s.Valid() && s.lru.keys == Numbers(n) && s.lru.capacity == (if n < 16 then 16 else 15)
    && |s.guards| == n && (forall x: Id :: x in s.guards <==> x < n) && (forall x: Id :: x in s.live ==> x < n)
    && (forall x :: x in s.guards ==> s.guards[x].pinned && !s.guards[x].dirty)
    && s.storage == map[] && s.committed == map[]
  }

  method LoadFurther(s: EditHistoryMgmtService, id: Id) returns (g: EditHistoryGuard, ghost victim: Option<Id>)
    requires s.Valid() && id !in s.lru.keys && id !in s.live
    modifies s`guards, s`live, s`storage, s`held, s.lru, s.guards.Values`dirty
    modifies if id in s.guards then {s.guards[id]} else {}
    ensures s.Valid() && s.Recorded(id, victim)
    ensures !old(s.Full(id)) ==> s.lru.capacity == s.Boosted(old(s.lru.capacity))
    ensures fresh(g) && fresh(g.history) && g.fileId == id && g.pinned && !g.dirty && s.Owns(g)
    ensures s.guards == Remaining(old(s.guards), victim)[id := g] && s.live == old(s.live)[id := g.history]
    ensures s.storage == Saved(old(s.storage), old(s.DirtyContents()), victim)
    ensures forall x :: x in old(s.guards) && victim != Some(x) ==> unchanged(old(s.guards)[x])
  {
    g, victim := s.LoadHistory(id, true);
  }

  method LoadListed(s: EditHistoryMgmtService, id: Id) returns (g: EditHistoryGuard)
    requires s.Valid() && id !in s.lru.keys && id !in s.live && !s.Full(id)
    modifies s`guards, s`live, s`storage, s`held, s.lru, s.guards.Values`dirty
    modifies if id in s.guards then {s.guards[id]} else {}
    ensures s.Valid() && s.lru.keys == old(s.lru.keys) + [id]
    ensures s.lru.capacity == if |s.guards| + 1 > DEFAULT_CAPACITY then |s.guards| - 1 else old(s.lru.capacity)
    ensures fresh(g) && g.pinned && !g.dirty && s.storage == old(s.storage)
    ensures s.guards == old(s.guards)[id := g] && s.live == old(s.live)[id := g.history]
    ensures forall x :: x in old(s.guards) ==> unchanged(old(s.guards)[x])
  {
    ghost var victim;
    g, victim := LoadFurther(s, id);
  }

  method LoadNext(s: EditHistoryMgmtService, n: nat)
    requires n < 16 && Filled(s, n)
    modifies s`guards, s`live, s`storage, s`held, s.lru, s.guards.Values`dirty
    ensures Filled(s, n + 1) && n in s.guards && fresh(s.guards[n]) && s.guards == old(s.guards)[n := s.guards[n]]
  {
    assert Numbers(n) + [n] == Numbers(n + 1);
    var g := LoadListed(s, n);
  }

  method SixteenHeld() returns (s: EditHistoryMgmtService)
    ensures fresh(s) && fresh(s.lru) && Filled(s, 16) && forall x :: x in s.guards ==> fresh(s.guards[x])
  {
    s := new EditHistoryMgmtService(map[]);
    assert |s.guards| == 0 && s.guards.Keys == {};
    for n := 0 to 16
      invariant fresh(s) && fresh(s.lru) && Filled(s, n) && forall x :: x in s.guards ==> fresh(s.guards[x])
    {
      LoadNext(s, n);
    }
  }

  /** With the first sixteen keys busy, the last one is the only one that can go. */
  lemma OnlyTheLast(busy: set<Id>)
    requires forall x: Id :: x < 16 ==> x in busy
    ensures Oldest(Numbers(16) + [16], busy) == if 16 in busy then None else Some(16)
    ensures 16 !in busy ==> Cycled(Numbers(16) + [16], busy) == Numbers(16)
  {
    var order := Numbers(16) + [16];
    var j := Victim(order, busy);
    assert order[16] == 16 && j >= 16;
    assert order[..16] == Numbers(16) && order[17..] == [];
  }

  /** The sixteen and one more, which is in use but not listed, because the list was full of pinned ones. */
  ghost predicate Unlisted(s: EditHistoryMgmtService, g: EditHistoryGuard)
    reads s, s.lru, s.guards.Values
  {
    && s.Valid() && s.lru.keys == Numbers(16) && s.lru.capacity == 15
    && (forall x: Id :: x in s.guards <==> x <= 16)
    && (forall x :: x in s.guards ==> s.guards[x].pinned && (x != 16 ==> !s.guards[x].dirty))
    && s.Owns(g) && g.fileId == 16 && 16 in s.live && s.live[16] == g.history && s.storage == map[]
  }

  /** The key of the file is the one that has to go again. */
  method LoadPushedOut(s: EditHistoryMgmtService, id: Id) returns (g: EditHistoryGuard)
    requires s.Valid() && s.Full(id) && id !in s.guards && id !in s.live
    requires Oldest(s.lru.keys + [id], s.Pinned()) == Some(id)
    modifies s`guards, s`live, s`storage, s`held, s.lru, s.guards.Values`dirty
    ensures s.Valid() && s.lru.capacity == old(s.lru.capacity)
    ensures s.lru.keys == Cycled(old(s.lru.keys) + [id], old(s.Pinned()))
    ensures fresh(g) && fresh(g.history) && g.fileId == id && g.pinned && !g.dirty && s.Owns(g)
    ensures s.guards == old(s.guards)[id := g] && s.live == old(s.live)[id := g.history] && s.storage == old(s.storage)
    ensures forall x :: x in old(s.guards) ==> unchanged(old(s.guards)[x])
  {
    ghost var victim;
    g, victim := LoadFurther(s, id);
    assert old(s.guards) - {id} == old(s.guards);
  }

  method LoadUnlisted(s: EditHistoryMgmtService) returns (g: EditHistoryGuard)
    requires Filled(s, 16)
    modifies s`guards, s`live, s`storage, s`held, s.lru, s.guards.Values`dirty
    ensures Unlisted(s, g) && fresh(g) && fresh(g.history) && s.guards == old(s.guards)[16 := g]
  {
    OnlyTheLast(s.Pinned());
    g := LoadPushedOut(s, 16);
  }

  /** The second load of the file puts a clean guard in the place of the dirty one. */
  method LoadAgain(s: EditHistoryMgmtService, g: EditHistoryGuard)
    requires Unlisted(s, g)
    modifies s`guards, s`live, s`storage, s`held, s.lru, s.guards.Values`dirty, g
    ensures s.Valid() && s.storage == map[] && 16 in s.live && s.live[16] == g.history && 16 in s.guards
    ensures s.guards == old(s.guards)[16 := s.guards[16]] && fresh(s.guards[16])
    ensures (forall x :: x in s.guards ==> !s.guards[x].dirty) && g.dirty == old(g.dirty)
  {
    OnlyTheLast(s.Pinned());
    var again;
    ghost var victim;
    again, victim := s.LoadHistory(16, true);
  }

  method SyncClean(s: EditHistoryMgmtService)
    requires s.Valid() && forall x :: x in s.guards ==> !s.guards[x].dirty
    modifies s`storage, s.guards.Values`dirty
    ensures s.storage == old(s.storage) && forall x :: x in s.guards ==> !s.guards[x].dirty
  {
    assert s.DirtyContents() == map[];
    s.Sync();
  }

  method UnlistedChange(content: Content) returns (s: EditHistoryMgmtService, g: EditHistoryGuard)
    ensures fresh(s) && fresh(s.lru) && forall x :: x in s.guards ==> fresh(s.guards[x])
    ensures Unlisted(s, g) && g.dirty && g.history.content == content && s.committed == map[16 := content]
  {
    s := SixteenHeld();
    g := LoadUnlisted(s);
    s.UpdateVersion(g, _ => content);
  }

  /**
   Sixteen files are loaded and held, so that a seventeenth is loaded without being listed.
   Its owner changes it, and a second load puts a clean guard in the place of the dirty one:
   Sync does not write the change.
   */
  method ReplacedGuard(content: Content) returns (s: EditHistoryMgmtService, g: EditHistoryGuard)
    ensures fresh(s) && s.committed == map[16 := content] && s.storage == map[] && !s.FilesOk()
    ensures g.dirty && g.fileId in s.guards && s.guards[g.fileId] != g && g.history.content == content
  {
    s, g := UnlistedChange(content);
    LoadAgain(s, g);
    SyncClean(s);
    assert !s.FileOk(16);
  }
}
