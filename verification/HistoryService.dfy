/** The edit history service: pinned guards behind a write-back LRU cache. */
module HistoryService {
  import opened Wrappers
  import opened Lru
  import opened EvictionCycle

  const DEFAULT_CAPACITY: nat := 16

  /** The serialised form of a history. */
  type Content = string
  const EMPTY: Content := ""

  class EditHistory {
    const fileId: Id
    var content: Content

    constructor (fileId: Id, content: Content)
      ensures this.fileId == fileId && this.content == content
    {
      this.fileId := fileId;
      this.content := content;
    }
  }

  class EditHistoryGuard {
    const fileId: Id
    const history: EditHistory
    var dirty: bool
    var pinned: bool

    constructor (fileId: Id, history: EditHistory)
      ensures this.fileId == fileId && this.history == history && !dirty && pinned
    {
      this.fileId := fileId;
      this.history := history;
      dirty := false;
      pinned := true;
    }
  }

  /** The storage after the dirty entry of an erased file was written. */
  function Saved(storage: map<Id, Content>, dirty: map<Id, Content>, erased: Option<Id>): map<Id, Content> {
    if erased.Some? && erased.value in dirty then storage[erased.value := dirty[erased.value]] else storage
  }

  /** The same, and then the content that was given back. */
  function WrittenBack(storage: map<Id, Content>, dirty: map<Id, Content>, erased: Option<Id>,
                       id: Id, content: Option<Content>): map<Id, Content>
  {
    var saved := Saved(storage, dirty, erased);
    if content.Some? then saved[id := content.value] else saved
  }

  function Remaining(guards: map<Id, EditHistoryGuard>, erased: Option<Id>): map<Id, EditHistoryGuard> {
    if erased.Some? then guards - {erased.value} else guards
  }

  class EditHistoryMgmtService {
    const lru: LruCache
    var guards: map<Id, EditHistoryGuard>
    var live: map<Id, EditHistory>
    var storage: map<Id, Content>

    /** What the owners committed last, and the files that have an owner now. */
    ghost var committed: map<Id, Content>
    ghost var held: set<Id>

    /** Every LRU key has a map entry, except possibly the key being inserted. */
    ghost predicate Listed(inserted: set<Id>)
      reads `guards, lru
    {
      lru.Valid() && |lru.keys| <= lru.capacity + 1 && forall id :: id in lru.keys ==> id in guards || id in inserted
    }

    ghost predicate Keyed()
      reads `guards
    {
      forall id :: id in guards ==> guards[id].fileId == id
    }

    /** What every method keeps, whoever calls it. */
    ghost predicate Valid()
      reads `guards, lru
    {
      Listed({}) && Keyed()
    }

    /** What an owner of the file is to see. */
    ghost function Expected(id: Id): Content
      reads this`committed
    {
      if id in committed then committed[id] else EMPTY
    }

    /**
     One file: the entry is dirty only while an owner holds it, the history object has the
     committed content, and so has the storage unless the entry is dirty.
     */
    ghost predicate FileOk(id: Id)
      reads this, guards.Values, live.Values
    {
      && (id in live ==> live[id].fileId == id && live[id].content == Expected(id))
      && (id in guards ==> guards[id].fileId == id && id in live && guards[id].history == live[id])
      && (id in guards && guards[id].dirty ==> id in held && id in committed)
      && (id in held ==> id in guards && guards[id].pinned)
      && (id in committed && !(id in guards && guards[id].dirty) ==> id in storage && storage[id] == committed[id])
      && (id in storage ==> id in committed)
    }

    ghost predicate FilesOk()
      reads this, guards.Values, live.Values
    {
      forall id :: FileOk(id)
    }

    /** The entry has changes that the storage does not have. */
    ghost predicate Unwritten(id: Id)
      reads `guards, `storage, `committed, guards.Values`dirty
    {
      id in guards && guards[id].dirty && !(id in committed && id in storage && storage[id] == committed[id])
    }

    ghost function Pinned(): set<Id>
      reads `guards, guards.Values`pinned
    {
      set id | id in guards && guards[id].pinned
    }

    /** What has to be written. */
    ghost function DirtyContents(): map<Id, Content>
      reads `guards, guards.Values`dirty, (set g | g in guards.Values :: g.history)`content
    {
      map id | id in guards && guards[id].dirty :: guards[id].history.content
    }

    constructor (storage: map<Id, Content>)
      ensures Valid() && FilesOk() && guards == map[] && live == map[] && held == {}
      ensures this.storage == storage && committed == storage
      ensures fresh(lru) && lru.keys == [] && lru.capacity == DEFAULT_CAPACITY
    {
      lru := new LruCache(DEFAULT_CAPACITY);
      guards, live := map[], map[];
      this.storage := storage;
      committed, held := storage, {};
    }

    // ----------------------------------------------------------- evicting

    /** Pinned candidates go back into the LRU list, each pushing out the next. */
    method CyclePinned(evictedId: Id) returns (candidate: Id, found: bool)
      requires lru.Valid() && lru.keys != [] && |lru.keys| >= lru.capacity && evictedId !in lru.keys
      modifies lru`keys
      ensures lru.Valid()
      ensures var order := [evictedId] + old(lru.keys);
              && found == Oldest(order, Pinned()).Some?
              && (found ==> Some(candidate) == Oldest(order, Pinned()) && lru.keys == Cycled(order, Pinned()))
              && (found ==> candidate !in lru.keys)
              && |lru.keys| == |old(lru.keys)| && forall id :: id in lru.keys ==> id in order
    {
      ghost var order := [evictedId] + lru.keys;
      ghost var j := Victim(order, Pinned());
      ghost var r := 0;
      AttemptsSuffice(order, j, guards.Keys);
      candidate := evictedId;
      var maxAttempts := if guards == map[] then 1 else |guards| + 1;
      var attempt := 0;
      assert |guards.Keys| == |guards| && lru.keys == Rotated(order, 0);
      while attempt < maxAttempts
        invariant attempt <= maxAttempts && r < |order| && candidate == order[r] && lru.keys == Rotated(order, r)
        invariant lru.Valid() && (j < |order| ==> attempt == r <= j)
      {
        RotatedKeys(order, r);
        if candidate !in guards || !guards[candidate].pinned {
          return candidate, true;
        }
        candidate, r := PassOver(lru, candidate, order, r);
        attempt := attempt + 1;
      }
      RotatedKeys(order, r);
      found := false;
    }

    method EraseEntry(id: Id, guard: EditHistoryGuard)
      requires id in guards && guard == guards[id]
      modifies this`guards, this`storage, guard`dirty
      ensures guards == old(guards) - {id} && storage == Saved(old(storage), old(DirtyContents()), Some(id)) && !guard.dirty
    {
      if guard.dirty {
        storage := storage[id := guard.history.content];
        guard.dirty := false;
      }
      guards := guards - {id};
    }

    /**
     The oldest entry that is not pinned is written if dirty and then erased; the pinned
     entries older than it become the most recent.  When the key being inserted has no
     entry yet and all others are pinned, that key itself leaves the LRU list.
     */
    method HandleEviction(evictedId: Id, ghost inserted: Id) returns (ghost victim: Option<Id>)
      requires Listed({inserted}) && Keyed() && Inserted(lru.keys, inserted) && |lru.keys| >= lru.capacity
      requires evictedId !in lru.keys && evictedId in guards
      modifies this`guards, this`storage, lru, guards.Values`dirty
      ensures Listed({inserted}) && Keyed()
      ensures victim == Oldest([evictedId] + old(lru.keys), old(Pinned()))
      ensures guards == Remaining(old(guards), victim) && storage == Saved(old(storage), old(DirtyContents()), victim)
      ensures victim.Some? ==>
                lru.keys == Cycled([evictedId] + old(lru.keys), old(Pinned())) && lru.capacity == old(lru.capacity)
      ensures victim.None? ==> evictedId in lru.keys && |lru.keys| < lru.capacity
      ensures forall x :: x in old(guards) && victim != Some(x) ==> unchanged(old(guards)[x])
      ensures victim.Some? && victim.value in old(guards) ==> !old(guards)[victim.value].dirty
    {
      var candidate, found := CyclePinned(evictedId);
      victim := if found then Some(candidate) else None;
      if !found {
        GrowFor(lru, evictedId);
        return;
      }
      if candidate !in guards {
        return;
      }
      EraseEntry(candidate, guards[candidate]);
      lru.RemoveRecord(candidate);
    }

    /** Recording the file pushes another one out of the list. */
    ghost predicate Full(id: Id)
      reads lru
    {
      id !in lru.keys && lru.keys != [] && |lru.keys| >= lru.capacity
    }

    /** The list after the file was recorded as used, and the entry erased for it. */
    twostate predicate Recorded(id: Id, new victim: Option<Id>)
      reads lru
    {
      var order := old(lru.keys) + [id];
      && victim == (if old(Full(id)) then Oldest(order, old(Pinned())) else None)
      && if !old(Full(id)) then lru.keys == Touch(old(lru.keys), id)
         else if victim.Some? then lru.keys == Cycled(order, old(Pinned())) && lru.capacity == old(lru.capacity)
         else order[0] in lru.keys && |lru.keys| < lru.capacity
    }

    /** Records an access to a file and evicts for it. */
    method Admit(fileId: Id) returns (evicted: bool, ghost victim: Option<Id>)
      requires Valid()
      modifies this`guards, this`storage, lru, guards.Values`dirty
      ensures Listed({fileId}) && Keyed()
      ensures evicted == old(Full(fileId)) && Recorded(fileId, victim)
      ensures !evicted ==> lru.capacity == old(lru.capacity)
      ensures victim.Some? ==> victim.value !in old(Pinned())
      ensures guards == Remaining(old(guards), victim) && storage == Saved(old(storage), old(DirtyContents()), victim)
      ensures forall x :: x in old(guards) && victim != Some(x) ==> unchanged(old(guards)[x])
      ensures victim.Some? && victim.value in old(guards) ==> !old(guards)[victim.value].dirty
    {
      ghost var order := lru.keys + [fileId];
      NextCycle(lru.keys, fileId);
      var out := lru.RecordAccessWithEvict(fileId);
      evicted := out.Some?;
      victim := None;
      if evicted {
        assert [out.value] + lru.keys == order;
        victim := HandleEviction(out.value, fileId);
      }
    }

    /** The files stay in order when an entry without a pin is erased: it was clean. */
    twostate lemma ErasingKeepsFiles(new victim: Option<Id>)
      requires old(FilesOk()) && (victim.Some? ==> victim.value !in old(Pinned()))
      requires guards == Remaining(old(guards), victim)
      requires forall x :: x in old(guards) && victim != Some(x) ==> unchanged(old(guards)[x])
      requires storage == Saved(old(storage), old(DirtyContents()), victim)
      requires live == old(live) && committed == old(committed) && held == old(held)
      requires forall id :: id in live ==> live[id].content == old(live[id].content)
      ensures FilesOk() && storage == old(storage) && forall id :: Unwritten(id) == old(Unwritten(id))
    {
      assert storage == old(storage) by {
        if victim.Some? {
          assert old(FileOk(victim.value));
        }
      }
      forall id ensures FileOk(id) && Unwritten(id) == old(Unwritten(id)) { assert old(FileOk(id)); }
    }

    /** With the files in order nothing dirty is evicted. */
    method AdmitClean(fileId: Id) returns (evicted: bool, ghost victim: Option<Id>)
      requires Valid()
      modifies this`guards, this`storage, lru, guards.Values`dirty
      ensures Listed({fileId}) && Keyed()
      ensures evicted == old(Full(fileId)) && Recorded(fileId, victim)
      ensures !evicted ==> lru.capacity == old(lru.capacity)
      ensures guards == Remaining(old(guards), victim) && storage == Saved(old(storage), old(DirtyContents()), victim)
      ensures forall x :: x in old(guards) && victim != Some(x) ==> unchanged(old(guards)[x])
      ensures victim.Some? && victim.value in old(guards) ==> !old(guards)[victim.value].dirty
      ensures old(FilesOk()) ==> FilesOk() && storage == old(storage) && forall id :: Unwritten(id) == old(Unwritten(id))
    {
      evicted, victim := Admit(fileId);
      if old(FilesOk()) {
        ErasingKeepsFiles(victim);
      }
    }

    /** The capacity of the list once it was set for the entries there are. */
    ghost function Boosted(capacity: nat): nat
      reads `guards
    {
      if |guards| + 1 > DEFAULT_CAPACITY then |guards| - 1 else capacity
    }

    /** A list that outgrew its capacity while everything was pinned is cut back. */
    method Shrink(evicted: bool)
      requires Listed({})
      modifies lru
      ensures Listed({}) && lru.keys == old(lru.keys)
      ensures lru.capacity == if evicted then old(lru.capacity) else Boosted(old(lru.capacity))
    {
      if !evicted && |guards| + 1 > DEFAULT_CAPACITY {
        DistinctWithin(lru.keys, guards.Keys);
        assert |guards.Keys| == |guards|;
        lru.Resize(|guards| - 1);
      }
    }

    // --------------------------------------------------------- operations

    /** A clean guard with the object that is still alive, else with one made from the stored content. */
    method MakeGuard(fileId: Id, alive: bool) returns (g: EditHistoryGuard)
      modifies this`live
      ensures fresh(g) && g.fileId == fileId && g.pinned && !g.dirty && live == old(live)[fileId := g.history]
      ensures if fileId in old(live) && (alive || fileId in guards) then g.history == old(live[fileId])
              else fresh(g.history) && g.history.content == if fileId in storage then storage[fileId] else EMPTY
      ensures old(FilesOk()) ==> FilesOk() && g.history.content == Expected(fileId)
    {
      var history;
      if fileId in live && (alive || fileId in guards) {
        history := live[fileId];
      } else {
        history := new EditHistory(fileId, if fileId in storage then storage[fileId] else EMPTY);
      }
      live := live[fileId := history];
      g := new EditHistoryGuard(fileId, history);
      if old(FilesOk()) {
        forall id ensures FileOk(id) { assert old(FileOk(id)); }
        assert FileOk(fileId);
      }
    }

    /** The guard becomes the entry of its file, pinned for a further owner. */
    method Insert(g: EditHistoryGuard)
      requires Listed({g.fileId}) && Keyed() && g.pinned && !g.dirty
      modifies this`guards, this`held
      ensures Valid() && held == old(held) + {g.fileId} && guards == old(guards)[g.fileId := g]
      ensures old(FilesOk()) && g.fileId in live && live[g.fileId] == g.history ==>
                (FilesOk() <==> !old(Unwritten(g.fileId)))
    {
      guards := guards[g.fileId := g];
      held := held + {g.fileId};
      if old(FilesOk()) && g.fileId in live && live[g.fileId] == g.history {
        assert old(FileOk(g.fileId));
        forall id ensures id != g.fileId ==> FileOk(id) { assert old(FileOk(id)); }
        assert FileOk(g.fileId) <==> !old(Unwritten(g.fileId));
      }
    }

    /** A listed file gives its guard out again. */
    method Reload(fileId: Id) returns (g: EditHistoryGuard)
      requires Valid() && fileId in lru.keys
      modifies this`held, lru`keys, guards[fileId]
      ensures Valid() && g == guards[fileId] && g.pinned && g.dirty == old(g.dirty) && held == old(held) + {fileId}
      ensures lru.keys == Touch(old(lru.keys), fileId)
      ensures old(FilesOk()) ==> FilesOk() && g.history.content == Expected(fileId)
    {
      TouchDistinct(lru.keys, fileId);
      var cachedId := lru.AccessElement(fileId);
      g := guards[cachedId.value];
      g.pinned := true;
      held := held + {fileId};
      if old(FilesOk()) {
        forall id ensures FileOk(id) { assert old(FileOk(id)); }
        assert FileOk(fileId);
      }
    }

    /** A new guard is recorded, and becomes the entry of its file. */
    method Enter(g: EditHistoryGuard) returns (ghost victim: Option<Id>)
      requires Valid() && g.pinned && !g.dirty && g !in guards.Values
      modifies this`guards, this`storage, this`held, lru, guards.Values`dirty
      ensures Valid() && held == old(held) + {g.fileId} && Recorded(g.fileId, victim)
      ensures !old(Full(g.fileId)) ==> lru.capacity == Boosted(old(lru.capacity))
      ensures guards == Remaining(old(guards), victim)[g.fileId := g]
      ensures storage == Saved(old(storage), old(DirtyContents()), victim)
      ensures forall x :: x in old(guards) && victim != Some(x) ==> unchanged(old(guards)[x])
      ensures old(FilesOk()) ==> storage == old(storage)
      ensures old(FilesOk()) && g.fileId in live && live[g.fileId] == g.history ==>
                (FilesOk() <==> !old(Unwritten(g.fileId)))
    {
      var evicted;
      evicted, victim := AdmitClean(g.fileId);
      Insert(g);
      Shrink(evicted);
    }

    /** Any other file gets a new clean guard, also over an entry that is still in the map. */
    method LoadNew(fileId: Id, alive: bool) returns (g: EditHistoryGuard, ghost victim: Option<Id>)
      requires Valid() && fileId !in lru.keys
      modifies this`guards, this`live, this`storage, this`held, lru, guards.Values`dirty
      ensures Valid() && held == old(held) + {fileId} && Recorded(fileId, victim)
      ensures !old(Full(fileId)) ==> lru.capacity == Boosted(old(lru.capacity))
      ensures fresh(g) && g.fileId == fileId && g.pinned && !g.dirty
      ensures guards == Remaining(old(guards), victim)[fileId := g] && live == old(live)[fileId := g.history]
      ensures if fileId in old(live) && (alive || fileId in old(guards)) then g.history == old(live[fileId])
              else fresh(g.history) && g.history.content == if fileId in old(storage) then old(storage[fileId]) else EMPTY
      ensures storage == Saved(old(storage), old(DirtyContents()), victim)
      ensures forall x :: x in old(guards) && victim != Some(x) ==> unchanged(old(guards)[x])
      ensures old(FilesOk()) ==> storage == old(storage) && g.history.content == Expected(fileId)
      ensures old(FilesOk()) ==> (FilesOk() <==> !old(Unwritten(fileId)))
    {
      g := MakeGuard(fileId, alive);
      assert Pinned() == old(Pinned()) && DirtyContents() == old(DirtyContents()) && g !in guards.Values;
      victim := Enter(g);
    }

    /**
     A listed file gives out its guard again; any other file gets a new clean one for its live
     object or its stored content, also when an entry that left the list is still in the map.
     With the files in order that is the committed content, and they stay in order exactly if
     no unwritten entry is replaced, which takes a second load of a file that left the list
     while its owner holds it.
     */
    method LoadHistory(fileId: Id, alive: bool) returns (g: EditHistoryGuard, ghost victim: Option<Id>)
      requires Valid()
      modifies this`guards, this`live, this`storage, this`held, lru, guards.Values`dirty
      modifies if fileId in guards then {guards[fileId]} else {}
      ensures Valid() && held == old(held) + {fileId} && Recorded(fileId, victim)
      ensures g.fileId == fileId && g.pinned && guards == Remaining(old(guards), victim)[fileId := g]
      ensures old(fileId in lru.keys) <==> !fresh(g)
      ensures !fresh(g) ==>
                g == old(guards)[fileId] && g.dirty == old(g.dirty) && live == old(live) && lru.capacity == old(lru.capacity)
      ensures fresh(g) ==> !g.dirty && live == old(live)[fileId := g.history]
      ensures fresh(g) ==>
                if fileId in old(live) && (alive || fileId in old(guards)) then g.history == old(live[fileId])
                else fresh(g.history) && g.history.content == if fileId in old(storage) then old(storage[fileId]) else EMPTY
      ensures fresh(g) && !old(Full(fileId)) ==> lru.capacity == Boosted(old(lru.capacity))
      ensures storage == Saved(old(storage), old(DirtyContents()), victim)
      ensures forall x :: x in old(guards) && (x != fileId || fresh(g)) && victim != Some(x) ==> unchanged(old(guards)[x])
      ensures old(FilesOk()) ==> storage == old(storage) && g.history.content == Expected(fileId)
      ensures old(FilesOk()) ==> (FilesOk() <==> fileId in old(lru.keys) || !old(Unwritten(fileId)))
    {
      if lru.Contains(fileId) {
        g := Reload(fileId);
        victim := None;
        assert guards[fileId := g] == guards;
      } else {
        g, victim := LoadNew(fileId, alive);
      }
    }

    /** The guard is that of the owner. */
    ghost predicate Owns(g: EditHistoryGuard)
      reads `held, `guards
    {
      g.fileId in held && g.fileId in guards && guards[g.fileId] == g
    }

    /** The guard is put back as the entry of its file. */
    method Reenter(g: EditHistoryGuard)
      requires Listed({g.fileId}) && Keyed()
      modifies this`guards, g`pinned
      ensures Valid() && guards == old(guards)[g.fileId := g] && g.pinned
      ensures old(FilesOk() && Owns(g)) ==> FilesOk()
    {
      guards := guards[g.fileId := g];
      g.pinned := true;
      if old(FilesOk() && Owns(g)) {
        assert old(FileOk(g.fileId));
        assert guards == old(guards);
        forall id ensures FileOk(id) { assert old(FileOk(id)); }
      }
    }

    /** The file is recorded as used, and the guard is its entry, pinned. */
    method Track(g: EditHistoryGuard) returns (ghost victim: Option<Id>)
      requires Valid()
      modifies this`guards, this`storage, lru, guards.Values`dirty, g`pinned
      ensures Valid() && Recorded(g.fileId, victim) && g.pinned
      ensures !old(Full(g.fileId)) ==> lru.capacity == old(lru.capacity)
      ensures guards == Remaining(old(guards), victim)[g.fileId := g]
      ensures storage == Saved(old(storage), old(DirtyContents()), victim)
      ensures forall x :: x in old(guards) && x != g.fileId && victim != Some(x) ==> unchanged(old(guards)[x])
      ensures old(FilesOk() && Owns(g)) ==> FilesOk() && storage == old(storage)
    {
      var evicted;
      evicted, victim := AdmitClean(g.fileId);
      assert old(FilesOk() && Owns(g)) ==> Owns(g) by {
        assert old(FilesOk()) ==> old(FileOk(g.fileId));
      }
      Reenter(g);
    }

    /** Committing or creating a version: the file is recorded as used, its content changes. */
    method CommitVersion(g: EditHistoryGuard, edit: Content -> Content) returns (ghost victim: Option<Id>)
      requires Valid()
      modifies this`guards, this`storage, this`committed, lru, guards.Values`dirty, g, g.history
      ensures Valid() && Recorded(g.fileId, victim) && g.pinned && g.dirty
      ensures !old(Full(g.fileId)) ==> lru.capacity == old(lru.capacity)
      ensures guards == Remaining(old(guards), victim)[g.fileId := g]
      ensures storage == Saved(old(storage), old(DirtyContents()), victim)
      ensures forall x :: x in old(guards) && x != g.fileId && victim != Some(x) ==> unchanged(old(guards)[x])
      ensures g.history.content == edit(old(g.history.content)) && committed == old(committed)[g.fileId := g.history.content]
      ensures old(FilesOk() && Owns(g)) ==> FilesOk() && Owns(g) && storage == old(storage)
    {
      victim := Track(g);
      UpdateVersion(g, edit);
    }

    /** Renaming, activating and updating versions change the content only. */
    method UpdateVersion(g: EditHistoryGuard, edit: Content -> Content)
      modifies this`committed, g`dirty, g.history
      ensures g.dirty && g.history.content == edit(old(g.history.content))
      ensures committed == old(committed)[g.fileId := g.history.content]
      ensures old(FilesOk() && Owns(g)) ==> FilesOk()
    {
      g.history.content := edit(g.history.content);
      g.dirty := true;
      committed := committed[g.fileId := g.history.content];
      if old(FilesOk() && Owns(g)) {
        assert old(FileOk(g.fileId));
        forall id ensures FileOk(id) { assert old(FileOk(id)); }
      }
    }

    /** One file given back by its owner leaves the others alone. */
    twostate lemma ReleaseKeepsFiles(g: EditHistoryGuard)
      requires old(FilesOk() && Owns(g)) && guards == old(guards) && live == old(live) && committed == old(committed)
      requires held == old(held) - {g.fileId} && !g.dirty && !g.pinned
      requires storage == if old(g.dirty) then old(storage)[g.fileId := g.history.content] else old(storage)
      requires forall x :: x in guards && x != g.fileId ==> unchanged(guards[x])
      requires forall x :: x in live ==> unchanged(live[x])
      ensures FilesOk()
    {
      assert old(FileOk(g.fileId));
      forall id ensures FileOk(id) { assert old(FileOk(id)); }
    }

    /** The guard becomes the entry, is written if dirty, and has no owner any more. */
    method Release(g: EditHistoryGuard)
      requires Listed({g.fileId}) && Keyed()
      modifies this`guards, this`live, this`storage, this`held, g
      ensures Valid() && guards == old(guards)[g.fileId := g] && live == old(live)[g.fileId := g.history]
      ensures held == old(held) - {g.fileId} && !g.dirty && !g.pinned
      ensures storage == if old(g.dirty) then old(storage)[g.fileId := g.history.content] else old(storage)
      ensures old(FilesOk() && Owns(g)) ==> FilesOk()
    {
      var fileId := g.fileId;
      guards := guards[fileId := g];
      live := live[fileId := g.history];
      if g.dirty {
        storage := storage[fileId := g.history.content];
        g.dirty := false;
      }
      g.pinned := false;
      held := held - {fileId};
      if old(FilesOk() && Owns(g)) {
        assert old(FileOk(fileId));
        assert guards == old(guards) && live == old(live);
        ReleaseKeepsFiles(g);
      }
    }

    /** The storage has what was committed. */
    ghost predicate Stored(id: Id)
      reads `storage, `committed
    {
      id in committed ==> id in storage && storage[id] == committed[id]
    }

    /** The guard is given back after its file was recorded as used. */
    method GiveBack(g: EditHistoryGuard, evicted: bool)
      requires Listed({g.fileId}) && Keyed()
      modifies this`guards, this`live, this`storage, this`held, lru, g
      ensures Valid() && guards == old(guards)[g.fileId := g] && live == old(live)[g.fileId := g.history]
      ensures held == old(held) - {g.fileId} && !g.dirty && !g.pinned
      ensures storage == if old(g.dirty) then old(storage)[g.fileId := g.history.content] else old(storage)
      ensures lru.keys == old(lru.keys) && lru.capacity == if evicted then old(lru.capacity) else Boosted(old(lru.capacity))
      ensures old(FilesOk() && Owns(g)) ==> FilesOk() && Stored(g.fileId)
    {
      Release(g);
      assert FilesOk() ==> FileOk(g.fileId);
      Shrink(evicted);
    }

    /** What a guard that is given back has to write, unless the eviction wrote it. */
    method AdmitReturned(g: EditHistoryGuard) returns (evicted: bool, ghost victim: Option<Id>)
      requires Valid()
      modifies this`guards, this`storage, lru, guards.Values`dirty
      ensures Listed({g.fileId}) && Keyed()
      ensures evicted == old(Full(g.fileId)) && Recorded(g.fileId, victim)
      ensures !evicted ==> lru.capacity == old(lru.capacity)
      ensures guards == Remaining(old(guards), victim)
      ensures forall x :: x in old(guards) && victim != Some(x) ==> unchanged(old(guards)[x])
      ensures (if g.dirty then storage[g.fileId := g.history.content] else storage) ==
              WrittenBack(old(storage), old(DirtyContents()), victim, g.fileId, if old(g.dirty) then Some(g.history.content) else None)
      ensures old(FilesOk() && Owns(g)) ==> FilesOk() && Owns(g)
    {
      evicted, victim := AdmitClean(g.fileId);
      assert old(FilesOk() && Owns(g)) ==> Owns(g) by {
        assert old(FilesOk()) ==> old(FileOk(g.fileId));
      }
      assert g.dirty == old(g.dirty) || (victim == Some(g.fileId) && storage[g.fileId := g.history.content] == storage);
    }

    /** The file is given back: its content is in the storage from here on. */
    method SaveHistory(g: EditHistoryGuard) returns (ghost victim: Option<Id>)
      requires Valid()
      modifies this`guards, this`live, this`storage, this`held, lru, guards.Values`dirty, g
      ensures Valid() && Recorded(g.fileId, victim) && held == old(held) - {g.fileId} && !g.dirty && !g.pinned
      ensures !old(Full(g.fileId)) ==> lru.capacity == Boosted(old(lru.capacity))
      ensures guards == Remaining(old(guards), victim)[g.fileId := g] && live == old(live)[g.fileId := g.history]
      ensures storage == WrittenBack(old(storage), old(DirtyContents()), victim,
                                     g.fileId, if old(g.dirty) then Some(g.history.content) else None)
      ensures forall x :: x in old(guards) && x != g.fileId && victim != Some(x) ==> unchanged(old(guards)[x])
      ensures old(FilesOk() && Owns(g)) ==> FilesOk() && Stored(g.fileId)
    {
      var evicted;
      evicted, victim := AdmitReturned(g);
      GiveBack(g, evicted);
    }

    /** Deleting a file also ends its ownership. */
    method DeleteHistory(fileId: Id)
      requires Valid()
      modifies this`guards, this`live, this`storage, this`committed, this`held, lru`keys
      ensures Valid() && lru.keys == Without(old(lru.keys), fileId)
      ensures committed == old(committed) - {fileId} && held == old(held) - {fileId}
      ensures guards == old(guards) - {fileId} && storage == old(storage) - {fileId} && live == old(live) - {fileId}
      ensures old(FilesOk()) ==> FilesOk()
    {
      lru.RemoveRecord(fileId);
      guards := guards - {fileId};
      live := live - {fileId};
      storage := storage - {fileId};
      committed, held := committed - {fileId}, held - {fileId};
      if old(FilesOk()) {
        forall id ensures FileOk(id) { assert old(FileOk(id)); }
      }
    }

    twostate lemma SyncSettles()
      requires old(FilesOk()) && guards == old(guards) && live == old(live)
      requires committed == old(committed) && held == old(held)
      requires storage == old(storage) + old(DirtyContents())
      requires forall x :: x in guards ==> !guards[x].dirty && guards[x].pinned == old(guards[x].pinned)
      requires forall x :: x in live ==> live[x].content == old(live[x].content)
      ensures FilesOk() && storage == committed
    {
      forall x ensures FileOk(x) && (x in storage <==> x in committed) && (x in storage ==> storage[x] == committed[x]) {
        assert old(FileOk(x));
      }
    }

    /** Every dirty history is written; with the files in order the storage then holds what was committed last. */
    method Sync()
      requires Valid()
      modifies this`storage, guards.Values`dirty
      ensures storage == old(storage) + old(DirtyContents()) && forall id :: id in guards ==> !guards[id].dirty
      ensures old(FilesOk()) ==> FilesOk() && storage == committed
    {
      WriteAll();
      if old(FilesOk()) {
        SyncSettles();
      }
    }

    method WriteAll()
      requires Keyed()
      modifies this`storage, guards.Values`dirty
      ensures storage == old(storage) + old(DirtyContents()) && forall id :: id in guards ==> !guards[id].dirty
    {
      ghost var all := DirtyContents();
      ghost var before := storage;
      var left := guards.Keys;
      while left != {}
        invariant left <= guards.Keys && storage == before + (all - left)
        invariant forall id :: id in guards ==> guards[id].dirty == (id in left && id in all)
        decreases left
      {
        var id :| id in left;
        OneWritten(before, all, left, id);
        WriteIfDirty(guards[id]);
        left := left - {id};
      }
      assert all - {} == all;
    }

    method WriteIfDirty(guard: EditHistoryGuard)
      modifies this`storage, guard`dirty
      ensures !guard.dirty
      ensures storage == if old(guard.dirty) then old(storage)[guard.fileId := guard.history.content] else old(storage)
    {
      if guard.dirty {
        storage := storage[guard.fileId := guard.history.content];
        guard.dirty := false;
      }
    }
  }
}
