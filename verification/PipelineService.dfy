/** The pipeline service: counted pins and render locks in front of a write-back LRU cache. */
module PipelineService {
  import opened Wrappers
  import opened Lru
  import opened EvictionCycle

  const DEFAULT_CAPACITY: nat := 16

  /** The serialised operators of a pipeline. */
  type Content = string

  class Pipeline {
    const boundFile: Id
    var content: Content

    constructor (boundFile: Id, content: Content)
      ensures this.boundFile == boundFile && this.content == content
    {
      this.boundFile := boundFile;
      this.content := content;
    }
  }

  class PipelineGuard {
    const id: Id
    const pipeline: Pipeline
    var dirty: bool
    var pinned: bool
    var pinCount: nat

    /** How often the guard was returned by a load and passed to a save. */
    ghost var loads: nat
    ghost var saves: nat

    /** The pins are the loads that were not saved yet. */
    ghost predicate Balanced()
      reads this
    {
      pinCount == loads - saves && pinned == (pinCount > 0)
    }

    /** Saving the guard now stores it. */
    ghost predicate LastDirtyPin()
      reads this
    {
      pinCount <= 1 && dirty
    }

    method Pin()
      modifies this
      ensures loads == old(loads) + 1 && saves == old(saves) && dirty == old(dirty)
      ensures pinCount == old(pinCount) + 1 && pinned
      ensures old(Balanced()) ==> Balanced()
    {
      pinCount := pinCount + 1;
      pinned := true;
      loads := loads + 1;
    }

    /** One pin less, if there is one; tells whether it was the last. */
    method Unpin() returns (lastPin: bool)
      modifies `pinned, `pinCount, `saves
      ensures loads == old(loads) && saves == old(saves) + 1 && dirty == old(dirty)
      ensures lastPin == (old(pinCount) <= 1) && pinCount == (if old(pinCount) == 0 then 0 else old(pinCount) - 1)
      ensures pinned == (pinCount > 0)
      ensures old(Balanced()) ==> (Balanced() <==> old(saves < loads))
    {
      saves := saves + 1;
      if pinCount > 0 {
        pinCount := pinCount - 1;
      }
      lastPin := pinCount == 0;
      pinned := !lastPin;
    }

    constructor (id: Id, pipeline: Pipeline)
      ensures this.id == id && this.pipeline == pipeline && !dirty
      ensures loads == 1 && saves == 0 && Balanced()
    {
      this.id := id;
      this.pipeline := pipeline;
      dirty := false;
      pinned, pinCount := true, 1;
      loads, saves := 1, 0;
    }
  }

  /**
   What becomes of an eviction.  An entry whose render lock is not had stays in the map: it is
   listed again if it is the one the list evicted, and given up, unlisted, if it is another.
   */
  datatype Eviction = Erased(id: Id) | Relisted | GivenUp(id: Id) | AllPinned | Absent
  {
    /** Nothing could be erased, so the list grows. */
    predicate Grows() {
      Relisted? || GivenUp? || AllPinned?
    }
  }

  /** Some attempt after the first j finds the render lock free. */
  ghost predicate LockHad(j: nat, attempts: nat, lockFree: nat -> bool) {
    exists a :: j <= a <= attempts && lockFree(a)
  }

  /** The oldest entry without pins is erased, if its render lock is had in one of the attempts left. */
  ghost function Outcome(order: seq<Id>, pinned: set<Id>, entries: set<Id>, lockFree: nat -> bool): Eviction {
    var oldest := Oldest(order, pinned);
    if oldest.None? then AllPinned
    else if oldest.value !in entries then Absent
    else if LockHad(Victim(order, pinned), |entries|, lockFree) then Erased(oldest.value)
    else if oldest.value == order[0] then Relisted
    else GivenUp(oldest.value)
  }

  /**
   The list after the eviction, when not everything is pinned: the oldest entry without pins
   left it, unless it was listed again.
   */
  ghost predicate ListedAfter(order: seq<Id>, pinned: set<Id>, e: Eviction, keys: seq<Id>) {
    !e.AllPinned? ==> forall id :: id in keys <==> id in order && (e.Relisted? || Some(id) != Oldest(order, pinned))
  }

  /** The entries after an eviction. */
  function Remaining(entries: map<Id, PipelineGuard>, e: Eviction): map<Id, PipelineGuard> {
    if e.Erased? then entries - {e.id} else entries
  }

  /** An entry without pins stays listed unless it is erased or given up. */
  lemma FreeStayListed(order: seq<Id>, pinned: set<Id>, entries: set<Id>, lockFree: nat -> bool, keys: seq<Id>)
    requires ListedAfter(order, pinned, Outcome(order, pinned, entries, lockFree), keys)
    ensures var e := Outcome(order, pinned, entries, lockFree);
            && (forall x :: x in order && x in entries && x !in pinned ==> x in keys || e == Erased(x) || e == GivenUp(x))
            && (e.GivenUp? ==> e.id in order && e.id in entries && e.id !in pinned && e.id !in keys)
  {
  }

  /** The storage after an eviction: a dirty entry is written before it is erased. */
  function Saved(storage: map<Id, Content>, dirty: map<Id, Content>, e: Eviction): map<Id, Content> {
    if e.Erased? && e.id in dirty then storage[e.id := dirty[e.id]] else storage
  }

  class PipelineMgmtService {
    const lru: LruCache
    var loaded: map<Id, PipelineGuard>
    var live: map<Id, Pipeline>
    var storage: map<Id, Content>

    /** What the users of the pipelines made of them last. */
    ghost var committed: map<Id, Content>

    /** The list names only files with an entry, except possibly the one being inserted. */
    ghost predicate Listed(inserted: set<Id>)
      reads `loaded, lru
    {
      lru.Valid() && |lru.keys| <= lru.capacity + 1 && forall id :: id in lru.keys ==> id in loaded || id in inserted
    }

    /** An entry is flagged as pinned exactly while it has pins. */
    ghost predicate Keyed()
      reads `loaded, loaded.Values
    {
      forall id :: id in loaded ==> loaded[id].id == id && loaded[id].pinned == (loaded[id].pinCount > 0)
    }

    ghost predicate AllBalanced()
      reads `loaded, loaded.Values
    {
      forall id :: id in loaded ==> loaded[id].Balanced()
    }

    /** What every method keeps, as long as no guard is saved more often than it was loaded. */
    ghost predicate Valid()
      reads `loaded, lru, loaded.Values
    {
      Listed({}) && Keyed() && AllBalanced()
    }

    ghost function Expected(id: Id): Content
      reads this`committed
    {
      if id in committed then committed[id] else ""
    }

    /** The entry has changes that the storage does not have. */
    ghost predicate Unwritten(id: Id)
      reads `loaded, `storage, `committed, loaded.Values`dirty
    {
      id in loaded && loaded[id].dirty && !(id in committed && id in storage && storage[id] == committed[id])
    }

    /** The pipeline object has the committed content, and so has the storage unless the entry is dirty. */
    ghost predicate ContentOk(id: Id)
      reads this, loaded.Values, live.Values
    {
      && (id in live ==> live[id].boundFile == id && live[id].content == Expected(id))
      && (id in loaded ==> loaded[id].id == id && id in live && loaded[id].pipeline == live[id])
      && (id in loaded && loaded[id].dirty ==> id in committed)
      && (id in committed && !(id in loaded && loaded[id].dirty) ==> id in storage && storage[id] == committed[id])
      && (id in storage ==> id in committed)
    }

    /** An unwritten entry is listed, or it has pins. */
    ghost predicate Reachable(id: Id)
      reads `loaded, `storage, `committed, lru, loaded.Values
    {
      Unwritten(id) ==> id in lru.keys || loaded[id].pinCount > 0
    }

    ghost predicate FileOk(id: Id)
      reads this, lru, loaded.Values, live.Values
    {
      ContentOk(id) && Reachable(id)
    }

    /** What has to be written. */
    ghost function DirtyContents(): map<Id, Content>
      reads `loaded, loaded.Values`dirty, (set g | g in loaded.Values :: g.pipeline)`content
    {
      map id | id in loaded && loaded[id].dirty :: loaded[id].pipeline.content
    }

    ghost predicate FilesOk()
      reads this, lru, loaded.Values, live.Values
    {
      forall id :: FileOk(id)
    }

    ghost function Pinned(): set<Id>
      reads `loaded, loaded.Values`pinCount
    {
      set id | id in loaded && loaded[id].pinCount > 0
    }

    constructor (storage: map<Id, Content>)
      ensures Valid() && FilesOk() && loaded == map[] && live == map[]
      ensures this.storage == storage && committed == storage
      ensures fresh(lru) && lru.keys == [] && lru.capacity == DEFAULT_CAPACITY
    {
      lru := new LruCache(DEFAULT_CAPACITY);
      loaded, live := map[], map[];
      this.storage, committed := storage, storage;
    }

    // ----------------------------------------------------------- evicting

    /** The evicted key and the keys of the list, oldest first. */
    ghost predicate Cycle(order: seq<Id>, evictedId: Id)
      reads this, lru
    {
      |order| > 1 && Distinct(order) && order[0] == evictedId && order[1..] == lru.keys
    }

    /**
     Pinned candidates go back into the LRU list.  A free candidate, whose flag is clear already,
     is taken once its render lock can be had, which is tried again until the attempts run out.
     */
    method CyclePinned(evictedId: Id, lockFree: nat -> bool, ghost order: seq<Id>)
      returns (candidate: Id, found: bool, ghost e: Eviction)
      requires lru.Valid() && |lru.keys| >= lru.capacity
      requires Cycle(order, evictedId)
      modifies lru`keys
      ensures lru.Valid() && |lru.keys| == |old(lru.keys)| && forall id :: id in lru.keys ==> id in order
      ensures e == Outcome(order, Pinned(), loaded.Keys, lockFree)
      ensures !e.AllPinned? ==>
                && Oldest(order, Pinned()) == Some(candidate)
                && lru.keys == Cycled(order, Pinned())
                && forall id :: id in lru.keys <==> id in order && id != candidate
      ensures found == (e.Erased? || e.Absent?)
    {
      ghost var busy := Pinned();
      ghost var j := Victim(order, busy);
      ghost var r := 0;
      e := Outcome(order, busy, loaded.Keys, lockFree);
      AttemptsSuffice(order, j, loaded.Keys);
      candidate := evictedId;
      var maxAttempts := if loaded == map[] then 1 else |loaded| + 1;
      var attempt := 0;
      assert |loaded.Keys| == |loaded| && lru.keys == Rotated(order, 0);
      while attempt < maxAttempts
        invariant attempt <= maxAttempts && r < |order| && candidate == order[r] && lru.keys == Rotated(order, r)
        invariant lru.Valid()
        invariant j < |order| ==> r <= attempt && ((r < j && attempt == r) || r == j)
        invariant j < |order| && attempt > j ==> candidate in loaded && forall a :: j <= a < attempt ==> !lockFree(a)
      {
        RotatedKeys(order, r);
        if candidate !in loaded {
          return candidate, true, e;
        }
        if loaded[candidate].pinCount == 0 {
          if lockFree(attempt) {
            return candidate, true, e;
          }
          attempt := attempt + 1;
          continue;
        }
        candidate, r := PassOver(lru, candidate, order, r);
        attempt := attempt + 1;
      }
      RotatedKeys(order, r);
      found := false;
    }

    /**
     The oldest entry without pins, if its render lock could be had.  An entry that is given up
     leaves the list unless it was the evicted one; then, or with everything pinned, the list grows.
     */
    method ChooseVictim(evictedId: Id, lockFree: nat -> bool, ghost order: seq<Id>)
      returns (victim: Option<Id>, ghost e: Eviction)
      requires lru.Valid() && |lru.keys| >= lru.capacity
      requires Cycle(order, evictedId)
      modifies lru
      ensures lru.Valid() && forall id :: id in lru.keys ==> id in order
      ensures e == Outcome(order, Pinned(), loaded.Keys, lockFree)
      ensures victim == if e.Erased? then Some(e.id) else None
      ensures !e.AllPinned? ==>
                lru.keys == if e.Grows() then Touch(Cycled(order, Pinned()), evictedId) else Cycled(order, Pinned())
      ensures ListedAfter(order, Pinned(), e, lru.keys) && (e.Grows() ==> evictedId in lru.keys)
      ensures if e.Grows() then |lru.keys| < lru.capacity
              else |lru.keys| == |old(lru.keys)| && lru.capacity == old(lru.capacity)
    {
      var candidate, found;
      candidate, found, e := CyclePinned(evictedId, lockFree, order);
      if !found {
        GrowFor(lru, evictedId);
        return None, e;
      }
      return if candidate in loaded then Some(candidate) else None, e;
    }

    /**
     A dirty entry is written before it is erased.  An entry that is given up stays in the map
     with the same guard, and is not listed any more.
     */
    method HandleEviction(evictedId: Id, lockFree: nat -> bool, ghost order: seq<Id>) returns (ghost e: Eviction)
      requires Cycle(order, evictedId) && |lru.keys| >= lru.capacity && Listed({order[|order| - 1]}) && evictedId in loaded
      modifies this`loaded, this`storage, lru
      ensures Listed({order[|order| - 1]})
      ensures e == Outcome(order, old(Pinned()), old(loaded).Keys, lockFree)
      ensures e.Erased? ==> e.id in old(loaded) && old(loaded[e.id].pinCount) == 0
      ensures loaded == Remaining(old(loaded), e)
      ensures storage == Saved(old(storage), old(DirtyContents()), e)
      ensures !e.AllPinned? ==>
                lru.keys == if e.Grows() then Touch(Cycled(order, old(Pinned())), evictedId)
                            else Cycled(order, old(Pinned()))
      ensures ListedAfter(order, old(Pinned()), e, lru.keys) && (e.Grows() ==> evictedId in lru.keys)
      ensures e.GivenUp? ==> e.id in loaded && loaded[e.id] == old(loaded)[e.id] && e.id !in lru.keys
      ensures if e.Grows() then |lru.keys| < lru.capacity else lru.capacity == old(lru.capacity)
    {
      var victim;
      victim, e := ChooseVictim(evictedId, lockFree, order);
      if victim.Some? {
        var guard := loaded[victim.value];
        if guard.dirty {
          storage := storage[victim.value := guard.pipeline.content];
        }
        loaded := loaded - {victim.value};
      }
    }

    /** Recording the file pushes another one out of the list. */
    ghost predicate Full(id: Id)
      reads lru
    {
      id !in lru.keys && lru.keys != [] && |lru.keys| >= lru.capacity
    }

    /** Evicts for a key that was just recorded: the last of the order, which begins with the one it pushed out. */
    method EvictFor(evictedId: Id, lockFree: nat -> bool, ghost order: seq<Id>) returns (ghost e: Eviction)
      requires Cycle(order, evictedId) && |lru.keys| >= lru.capacity && Listed({order[|order| - 1]}) && evictedId in loaded
      modifies this`loaded, this`storage, lru
      ensures Listed({order[|order| - 1]})
      ensures e == Outcome(order, old(Pinned()), old(loaded).Keys, lockFree)
      ensures e.Erased? ==> e.id in old(loaded) && old(loaded[e.id].pinCount) == 0
      ensures loaded == Remaining(old(loaded), e)
      ensures storage == Saved(old(storage), old(DirtyContents()), e)
      ensures ListedAfter(order, old(Pinned()), e, lru.keys)
      ensures if e.Grows() then |lru.keys| < lru.capacity else lru.capacity == old(lru.capacity)
    {
      e := HandleEviction(evictedId, lockFree, order);
    }

    /** Records the file as used, and evicts for it. */
    method Admit(id: Id, lockFree: nat -> bool) returns (evicted: bool, ghost e: Eviction)
      requires Listed({})
      modifies this`loaded, this`storage, lru
      ensures Listed({id}) && evicted == old(Full(id))
      ensures !evicted ==> e == Absent && lru.keys == Touch(old(lru.keys), id) && lru.capacity == old(lru.capacity)
      ensures evicted ==> e == Outcome(old(lru.keys) + [id], old(Pinned()), old(loaded).Keys, lockFree)
      ensures e.Erased? ==> e.id in old(loaded) && old(loaded[e.id].pinCount) == 0
      ensures loaded == Remaining(old(loaded), e)
      ensures storage == Saved(old(storage), old(DirtyContents()), e)
      ensures evicted ==> ListedAfter(old(lru.keys) + [id], old(Pinned()), e, lru.keys)
      ensures evicted ==> if e.Grows() then |lru.keys| < lru.capacity else lru.capacity == old(lru.capacity)
    {
      ghost var order := lru.keys + [id];
      NextCycle(lru.keys, id);
      var out := lru.RecordAccessWithEvict(id);
      evicted := out.Some?;
      e := Absent;
      if evicted {
        assert order[1..] == lru.keys && order[|order| - 1] == id;
        e := EvictFor(out.value, lockFree, order);
      }
    }

    /** The list never loses a key here, since it names no more files than there are entries. */
    method Shrink()
      requires Listed({}) && |loaded| + 1 > DEFAULT_CAPACITY
      modifies lru
      ensures Listed({}) && lru.keys == old(lru.keys) && lru.capacity == |loaded| - 1
    {
      DistinctWithin(lru.keys, loaded.Keys);
      assert |loaded.Keys| == |loaded|;
      lru.Resize(|loaded| - 1);
    }

    /** The entries stay in order when one is erased and a guard is put into the map. */
    twostate lemma EntriesKept(new g: PipelineGuard, e: Eviction)
      requires loaded == Remaining(old(loaded), e)[g.id := g] && g.pinned == (g.pinCount > 0)
      requires forall id :: id in old(loaded) && id != g.id ==> unchanged(old(loaded[id]))
      ensures old(Keyed()) ==> Keyed()
      ensures old(AllBalanced()) && g.Balanced() ==> AllBalanced()
    {
      forall id | id in loaded && id != g.id ensures id in old(loaded) && loaded[id] == old(loaded[id]) {
      }
    }

    /** Records the file as used, evicts for it, and puts its guard into the map. */
    method Store(g: PipelineGuard, lockFree: nat -> bool) returns (ghost e: Eviction)
      requires Listed({}) && g.pinned == (g.pinCount > 0)
      modifies this`loaded, this`storage, lru
      ensures Listed({}) && (old(Keyed()) ==> Keyed()) && (old(AllBalanced()) && g.Balanced() ==> AllBalanced())
      ensures e == if old(Full(g.id)) then Outcome(old(lru.keys) + [g.id], old(Pinned()), old(loaded).Keys, lockFree)
                   else Absent
      ensures e.Erased? ==> e.id in old(loaded) && old(loaded[e.id].pinCount) == 0
      ensures loaded == Remaining(old(loaded), e)[g.id := g]
      ensures storage == Saved(old(storage), old(DirtyContents()), e)
      ensures !old(Full(g.id)) ==>
                && lru.keys == Touch(old(lru.keys), g.id)
                && lru.capacity == if |loaded| + 1 > DEFAULT_CAPACITY then |loaded| - 1 else old(lru.capacity)
      ensures e.GivenUp? ==> e.id in old(loaded) && old(loaded[e.id].pinCount) == 0 && e.id !in lru.keys
      ensures e.Grows() ==> |lru.keys| < lru.capacity
      ensures forall x :: (x in old(lru.keys) || x == g.id) && old(x in loaded && loaded[x].pinCount == 0) ==>
                x in lru.keys || e == Erased(x) || e == GivenUp(x)
    {
      var evicted;
      evicted, e := Admit(g.id, lockFree);
      if evicted {
        FreeStayListed(old(lru.keys) + [g.id], old(Pinned()), old(loaded).Keys, lockFree, lru.keys);
      }
      loaded := loaded[g.id := g];
      if !evicted && |loaded| + 1 > DEFAULT_CAPACITY {
        Shrink();
      }
      EntriesKept(g, e);
    }

    twostate predicate FreeEntry(id: Id) {
      id in old(loaded) && old(loaded[id].pinCount) == 0
    }

    /** What putting a guard into the map leaves: all but the erased entry, written if it was dirty. */
    twostate predicate StoredFor(was: map<Id, PipelineGuard>, id: Id, new g: PipelineGuard, e: Eviction)
      reads this, was.Values, live.Values
    {
      && was == old(loaded) && live == old(live) && committed == old(committed)
      && loaded == Remaining(old(loaded), e)[id := g]
      && (e.Erased? ==> FreeEntry(e.id))
      && storage == Saved(old(storage), old(DirtyContents()), e)
      && (forall x :: x in was && x != id ==> was[x].dirty == old(was[x].dirty))
      && (forall x :: x in was && x != id ==> was[x].pinCount == old(was[x].pinCount))
      && (forall x :: x in live ==> live[x].content == old(live[x].content))
    }

    /** Which entries the eviction left listed. */
    twostate predicate StaysListed(id: Id, e: Eviction)
      reads this, lru
    {
      && (e.GivenUp? ==> FreeEntry(e.id) && e.id !in lru.keys)
      && forall x :: (x in old(lru.keys) || x == id) && old(x in loaded && loaded[x].pinCount == 0) ==>
           x in lru.keys || e == Erased(x) || e == GivenUp(x)
    }

    /** All files are in order, and the guard is that of an entry, or a clean one for a file that is not listed. */
    ghost predicate InOrderBut(g: PipelineGuard)
      reads this, lru, loaded.Values, live.Values, g
    {
      && (forall x :: ContentOk(x)) && (forall x :: x != g.id ==> Reachable(x))
      && g.id in live && g.pipeline == live[g.id]
      && if g.id in loaded && g == loaded[g.id] then g.pinCount == 0 else !g.dirty && Reachable(g.id) && g.id !in lru.keys
    }

    lemma InOrderFor(g: PipelineGuard)
      requires FilesOk() && g.id in live && g.pipeline == live[g.id] && !g.dirty && g.id !in lru.keys
      requires !(g.id in loaded && g == loaded[g.id])
      ensures InOrderBut(g)
    {
      forall x ensures ContentOk(x) && Reachable(x) { assert FileOk(x); }
    }

    twostate lemma OtherFile(new id: Id, new g: PipelineGuard, new e: Eviction, new x: Id)
      requires StoredFor(old(loaded), id, g, e) && StaysListed(id, e)
      requires x != id && old(FileOk(x))
      ensures FileOk(x) <==> !(e == GivenUp(x) && old(Unwritten(x)))
    {
    }

    twostate lemma StoredFile(new id: Id, new g: PipelineGuard, new e: Eviction)
      requires StoredFor(old(loaded), id, g, e) && StaysListed(id, e)
      requires old(ContentOk(id)) && g.id == id && id in live && g.pipeline == live[id]
      requires if id in old(loaded) && g == old(loaded)[id]
               then g.dirty == old(loaded[id].dirty) && g.pinCount == old(loaded[id].pinCount) == 0
               else !g.dirty && old(Reachable(id)) && id !in old(lru.keys)
      ensures FileOk(id) <==> (if id in old(loaded) && g == old(loaded)[id]
                               then !(e == GivenUp(id) && old(Unwritten(id))) else !old(Unwritten(id)))
    {
    }

    /** Whether the file is out of order after its entry was replaced or another one was given up. */
    twostate predicate Dropped(new id: Id, new g: PipelineGuard, new e: Eviction, new x: Id)
      reads this
    {
      old(Unwritten(x)) && (e == GivenUp(x) || (x == id && g != old(loaded)[id]))
    }

    /**
     All files are in order afterwards, unless an unwritten entry was replaced by another guard
     or was given up and left the list.
     */
    twostate lemma FilesAfterStore(g: PipelineGuard, new e: Eviction)
      requires old(InOrderBut(g)) && StoredFor(old(loaded), g.id, g, e) && StaysListed(g.id, e)
      requires g.dirty == old(g.dirty) && g.pinCount == old(g.pinCount)
      ensures FilesOk() <==> forall x :: !Dropped(g.id, g, e, x)
    {
      var id := g.id;
      forall x ensures FileOk(x) <==> !Dropped(id, g, e, x) {
        if x == id {
          StoredFile(id, g, e);
        } else {
          OtherFile(id, g, e, x);
        }
      }
    }

    twostate lemma DroppedAre(new id: Id, new g: PipelineGuard, new e: Eviction)
      ensures (forall x :: !Dropped(id, g, e, x)) <==>
              && !(old(Unwritten(id)) && g != old(loaded)[id])
              && !(e.GivenUp? && old(Unwritten(e.id)))
    {
      assert Dropped(id, g, e, id) <==> old(Unwritten(id)) && (g != old(loaded)[id] || e == GivenUp(id));
      assert e.GivenUp? ==> (Dropped(id, g, e, e.id) <==> old(Unwritten(e.id)));
    }

    // --------------------------------------------------------- operations

    /** A clean guard for the pipeline object that is still alive, else for one made from the stored content. */
    method MakeGuard(id: Id) returns (g: PipelineGuard)
      modifies this`live
      ensures fresh(g) && g.id == id && g.pinned && g.pinCount == 1 && g.loads == 1 && g.saves == 0 && !g.dirty
      ensures live == old(live)[id := g.pipeline]
      ensures id in old(live) ==> g.pipeline == old(live[id])
      ensures id !in old(live) ==> fresh(g.pipeline) && g.pipeline.content == if id in storage then storage[id] else ""
      ensures old(FilesOk()) ==> g.pipeline.content == Expected(id)
      ensures old(FilesOk()) && id !in lru.keys ==> InOrderBut(g)
    {
      var pipeline;
      if id in live {
        pipeline := live[id];
      } else {
        pipeline := new Pipeline(id, if id in storage then storage[id] else "");
      }
      live := live[id := pipeline];
      g := new PipelineGuard(id, pipeline);
      if old(FilesOk()) {
        forall x ensures FileOk(x) { assert old(FileOk(x)); }
        assert FileOk(id);
        if id !in lru.keys {
          InOrderFor(g);
        }
      }
    }

    /** Pins and the order of the list do not matter to the files. */
    twostate lemma PinKeepsFiles()
      requires loaded == old(loaded) && live == old(live) && storage == old(storage) && committed == old(committed)
      requires forall x :: x in old(lru.keys) ==> x in lru.keys
      requires forall x :: x in loaded ==>
                 loaded[x].dirty == old(loaded[x].dirty) && loaded[x].pinCount >= old(loaded[x].pinCount)
      requires forall x :: x in live ==> live[x].content == old(live[x].content)
      ensures old(FilesOk()) ==> FilesOk()
    {
      if old(FilesOk()) {
        forall x ensures FileOk(x) { assert old(FileOk(x)); }
      }
    }

    /** One more pin for the guard of a listed file. */
    method Reload(id: Id) returns (g: PipelineGuard)
      requires Listed({}) && Keyed() && id in lru.keys
      modifies this`live, lru`keys, loaded[id]
      ensures Listed({}) && Keyed() && (old(AllBalanced()) ==> AllBalanced())
      ensures g == loaded[id] && g.pinned && live == old(live)[id := g.pipeline] && lru.keys == Touch(old(lru.keys), id)
      ensures g.loads == old(g.loads) + 1 && g.saves == old(g.saves)
      ensures g.dirty == old(g.dirty) && g.pinCount == old(g.pinCount) + 1
      ensures old(FilesOk()) ==> FilesOk() && g.pipeline.content == Expected(id)
    {
      TouchDistinct(lru.keys, id);
      var cachedId := lru.AccessElement(id);
      g := loaded[cachedId.value];
      g.Pin();
      live := live[id := g.pipeline];
      if old(FilesOk()) {
        assert old(FileOk(id));
        PinKeepsFiles();
        assert FileOk(id);
      }
    }

    /** Storing keeps the files in order unless it replaces or gives up an unwritten entry. */
    method StoreInOrder(g: PipelineGuard, lockFree: nat -> bool) returns (ghost e: Eviction)
      requires Listed({}) && g.pinned == (g.pinCount > 0)
      modifies this`loaded, this`storage, lru
      ensures Listed({}) && (old(Keyed()) ==> Keyed()) && (old(AllBalanced()) && g.Balanced() ==> AllBalanced())
      ensures e == if old(Full(g.id)) then Outcome(old(lru.keys) + [g.id], old(Pinned()), old(loaded).Keys, lockFree)
                   else Absent
      ensures e.Erased? ==> e.id in old(loaded) && old(loaded[e.id].pinCount) == 0
      ensures loaded == Remaining(old(loaded), e)[g.id := g]
      ensures storage == Saved(old(storage), old(DirtyContents()), e)
      ensures !old(Full(g.id)) ==>
                && lru.keys == Touch(old(lru.keys), g.id)
                && lru.capacity == if |loaded| + 1 > DEFAULT_CAPACITY then |loaded| - 1 else old(lru.capacity)
      ensures e.GivenUp? ==> e.id in old(loaded) && old(loaded[e.id].pinCount) == 0 && e.id !in lru.keys
      ensures e.Grows() ==> |lru.keys| < lru.capacity
      ensures old(InOrderBut(g)) ==>
                (FilesOk() <==>
                 && (old(Unwritten(g.id)) ==> g == old(loaded)[g.id])
                 && (e.GivenUp? ==> !old(Unwritten(e.id))))
    {
      e := Store(g, lockFree);
      if old(InOrderBut(g)) {
        FilesAfterStore(g, e);
        DroppedAre(g.id, g, e);
      }
    }

    /** A file that is not listed gets a new clean guard, also over an entry that is still in the map. */
    method LoadNew(id: Id, lockFree: nat -> bool) returns (g: PipelineGuard, ghost e: Eviction)
      requires Listed({}) && Keyed() && id !in lru.keys
      modifies this`loaded, this`live, this`storage, lru
      ensures Listed({}) && Keyed() && (old(AllBalanced()) ==> AllBalanced())
      ensures fresh(g) && g.id == id && g.pinned && g.pinCount == 1 && g.loads == 1 && g.saves == 0 && !g.dirty
      ensures id in old(live) ==> g.pipeline == old(live[id])
      ensures id !in old(live) ==>
                fresh(g.pipeline) && g.pipeline.content == if id in old(storage) then old(storage[id]) else ""
      ensures live == old(live)[id := g.pipeline] && loaded == Remaining(old(loaded), e)[id := g]
      ensures e == if old(Full(id)) then Outcome(old(lru.keys) + [id], old(Pinned()), old(loaded).Keys, lockFree) else Absent
      ensures e.Erased? ==> e.id in old(loaded) && old(loaded[e.id].pinCount) == 0
      ensures storage == Saved(old(storage), old(DirtyContents()), e)
      ensures !old(Full(id)) ==>
                && lru.keys == Touch(old(lru.keys), id)
                && lru.capacity == if |loaded| + 1 > DEFAULT_CAPACITY then |loaded| - 1 else old(lru.capacity)
      ensures e.GivenUp? ==> e.id in old(loaded) && old(loaded[e.id].pinCount) == 0 && e.id !in lru.keys
      ensures e.Grows() ==> |lru.keys| < lru.capacity
      ensures old(FilesOk()) ==>
                (FilesOk() <==> !old(Unwritten(id)) && (e.GivenUp? ==> !old(Unwritten(e.id))))
      ensures old(FilesOk()) ==> g.pipeline.content == Expected(id)
    {
      g := MakeGuard(id);
      assert Pinned() == old(Pinned()) && DirtyContents() == old(DirtyContents());
      e := StoreInOrder(g, lockFree);
    }

    /**
     A listed file gives its guard one more pin; any other file gets a new clean guard with one
     pin, also when an entry that left the list is still in the map.  So a load keeps the dirty
     flag of an entry exactly if the entry is listed or clean, and it keeps all files in order
     exactly if no unwritten entry is replaced or given up.
     */
    method LoadPipeline(id: Id, lockFree: nat -> bool) returns (g: PipelineGuard, ghost e: Eviction)
      requires Listed({}) && Keyed()
      modifies this`loaded, this`live, this`storage, lru, if id in loaded then {loaded[id]} else {}
      ensures Listed({}) && Keyed() && (old(AllBalanced()) ==> AllBalanced())
      ensures g.id == id && g.pinned && live == old(live)[id := g.pipeline] && loaded == Remaining(old(loaded), e)[id := g]
      ensures old(id in lru.keys) <==> !fresh(g)
      ensures !fresh(g) ==>
                && g == old(loaded)[id] && g.pinCount == old(g.pinCount) + 1 && g.loads == old(g.loads) + 1
                && g.saves == old(g.saves) && g.dirty == old(g.dirty) && lru.capacity == old(lru.capacity)
      ensures fresh(g) ==> g.pinCount == 1 && g.loads == 1 && g.saves == 0 && !g.dirty
      ensures fresh(g) && id in old(live) ==> g.pipeline == old(live[id])
      ensures fresh(g) && id !in old(live) ==>
                fresh(g.pipeline) && g.pipeline.content == if id in old(storage) then old(storage[id]) else ""
      ensures e == if old(Full(id)) then Outcome(old(lru.keys) + [id], old(Pinned()), old(loaded).Keys, lockFree) else Absent
      ensures e.Erased? ==> e.id in old(loaded) && old(loaded[e.id].pinCount) == 0
      ensures storage == Saved(old(storage), old(DirtyContents()), e)
      ensures !old(Full(id)) ==> lru.keys == Touch(old(lru.keys), id)
      ensures !old(Full(id)) && fresh(g) ==>
                lru.capacity == if |loaded| + 1 > DEFAULT_CAPACITY then |loaded| - 1 else old(lru.capacity)
      ensures e.GivenUp? ==> e.id in old(loaded) && old(loaded[e.id].pinCount) == 0 && e.id !in lru.keys
      ensures e.Grows() ==> |lru.keys| < lru.capacity
      ensures id in old(loaded) ==>
                (g.dirty == old(loaded[id].dirty) <==> id in old(lru.keys) || !old(loaded[id].dirty))
      ensures old(FilesOk()) ==> g.pipeline.content == Expected(id)
      ensures old(FilesOk()) ==>
                (FilesOk() <==>
                 && (id !in old(lru.keys) ==> !old(Unwritten(id)))
                 && (e.GivenUp? ==> !old(Unwritten(e.id))))
    {
      if lru.Contains(id) {
        g := Reload(id);
        e := Absent;
        assert loaded[id := g] == loaded;
      } else {
        g, e := LoadNew(id, lockFree);
      }
    }

    /** The guard is the one in the map. */
    ghost predicate Owns(g: PipelineGuard)
      reads `loaded
    {
      g.id in loaded && loaded[g.id] == g
    }

    /** A user of a pinned pipeline changes it and marks it as dirty. */
    method EditPipeline(g: PipelineGuard, content: Content)
      requires Owns(g) && g.pinCount > 0
      modifies this`committed, g`dirty, g.pipeline
      ensures g.dirty && g.pipeline.content == content && committed == old(committed)[g.id := content]
      ensures (old(Keyed()) ==> Keyed()) && (old(AllBalanced()) ==> AllBalanced()) && (old(FilesOk()) ==> FilesOk())
    {
      g.pipeline.content := content;
      g.dirty := true;
      committed := committed[g.id := content];
      if old(FilesOk()) {
        assert old(FileOk(g.id));
        forall x ensures FileOk(x) { assert old(FileOk(x)); }
      }
    }

    /** A save takes one pin away; the pins stay the loads minus the saves while no guard is saved too often. */
    method ReturnPin(g: PipelineGuard) returns (lastPin: bool)
      requires Listed({}) && Keyed()
      modifies this`live, g`pinned, g`pinCount, g`saves
      ensures Keyed() && g.pinned == (g.pinCount > 0) && live == old(live)[g.id := g.pipeline]
      ensures g.saves == old(g.saves) + 1
      ensures lastPin == (old(g.pinCount) <= 1) && g.pinCount == if old(g.pinCount) == 0 then 0 else old(g.pinCount) - 1
      ensures old(g.Balanced()) ==> (g.Balanced() <==> old(g.saves < g.loads))
      ensures old(AllBalanced() && g.Balanced() && g.saves < g.loads) ==> AllBalanced()
      ensures old(FilesOk() && Owns(g)) ==> if lastPin && g.dirty then InOrderBut(g) else FilesOk()
      ensures lastPin ==> Pinned() == old(Pinned()) - if Owns(g) then {g.id} else {}
    {
      live := live[g.id := g.pipeline];
      lastPin := g.Unpin();
      if old(FilesOk() && Owns(g)) {
        assert old(FileOk(g.id));
        assert live == old(live);
        forall x ensures ContentOk(x) && (x != g.id || !lastPin || !g.dirty ==> Reachable(x)) { assert old(FileOk(x)); }
      }
    }

    /**
     Only the last save of a dirty guard stores it.  The guard of an entry keeps all files in
     order unless another unwritten entry is given up.
     */
    method SavePipeline(g: PipelineGuard, lockFree: nat -> bool) returns (ghost e: Eviction)
      requires Listed({}) && Keyed()
      modifies this`loaded, this`live, this`storage, lru, g
      ensures Listed({}) && Keyed() && live == old(live)[g.id := g.pipeline]
      ensures old(AllBalanced() && g.Balanced() && g.saves < g.loads) ==> AllBalanced()
      ensures g.loads == old(g.loads) && g.saves == old(g.saves) + 1 && g.dirty == old(g.dirty)
      ensures g.pinCount == if old(g.pinCount) == 0 then 0 else old(g.pinCount) - 1
      ensures old(g.Balanced()) ==> (g.Balanced() <==> old(g.saves < g.loads))
      ensures !old(g.LastDirtyPin()) ==>
                e == Absent && loaded == old(loaded) && storage == old(storage) && unchanged(lru)
      ensures old(g.LastDirtyPin()) ==> loaded == Remaining(old(loaded), e)[g.id := g]
      ensures old(g.LastDirtyPin()) ==> storage == Saved(old(storage), old(DirtyContents()), e)
      ensures old(g.LastDirtyPin() && !Full(g.id)) ==>
                && e == Absent && lru.keys == Touch(old(lru.keys), g.id)
                && lru.capacity == if |loaded| + 1 > DEFAULT_CAPACITY then |loaded| - 1 else old(lru.capacity)
      ensures old(g.LastDirtyPin() && Full(g.id)) ==>
                e == Outcome(old(lru.keys) + [g.id], old(Pinned() - if Owns(g) then {g.id} else {}),
                             old(loaded).Keys, lockFree)
      ensures e.Erased? ==> e.id in old(loaded) && (old(loaded[e.id].pinCount) == 0 || e.id == g.id)
      ensures old(FilesOk() && Owns(g)) ==> (FilesOk() <==> (e.GivenUp? ==> !old(Unwritten(e.id))))
    {
      var lastPin := ReturnPin(g);
      e := Absent;
      if lastPin && g.dirty {
        assert old(g.LastDirtyPin());
        assert Full(g.id) == old(Full(g.id)) && DirtyContents() == old(DirtyContents());
        assert forall x :: Unwritten(x) == old(Unwritten(x));
        e := StoreInOrder(g, lockFree);
      } else {
        assert !old(g.LastDirtyPin());
      }
    }

    /** After Sync no entry is dirty and the storage is complete. */
    twostate lemma SyncSettles()
      requires old(FilesOk()) && loaded == old(loaded) && live == old(live) && committed == old(committed)
      requires storage == old(storage) + old(DirtyContents())
      requires forall x :: x in loaded ==> !loaded[x].dirty
      requires forall x :: x in live ==> live[x].content == old(live[x].content)
      ensures FilesOk() && storage == committed
    {
      forall x ensures FileOk(x) && (x in storage <==> x in committed) && (x in storage ==> storage[x] == committed[x]) {
        assert old(FileOk(x));
      }
    }

    /** Every dirty pipeline is in the storage afterwards, and nothing else changed there. */
    method Sync()
      requires Listed({}) && Keyed()
      modifies this`storage, loaded.Values`dirty
      ensures storage == old(storage) + old(DirtyContents())
      ensures forall id :: id in loaded ==> !loaded[id].dirty
      ensures Keyed() && (old(AllBalanced()) ==> AllBalanced())
      ensures old(FilesOk()) ==> FilesOk() && storage == committed
    {
      WriteAll();
      if old(FilesOk()) {
        SyncSettles();
      }
    }

    method WriteAll()
      requires Keyed()
      modifies this`storage, loaded.Values`dirty
      ensures storage == old(storage) + old(DirtyContents())
      ensures forall id :: id in loaded ==> !loaded[id].dirty
    {
      ghost var all := DirtyContents();
      ghost var before := storage;
      var left := loaded.Keys;
      while left != {}
        invariant left <= loaded.Keys && storage == before + (all - left)
        invariant forall id :: id in loaded ==> loaded[id].dirty == (id in left && id in all)
        decreases left
      {
        var id :| id in left;
        OneWritten(before, all, left, id);
        WriteIfDirty(loaded[id]);
        left := left - {id};
      }
      assert all - {} == all;
    }

    method WriteIfDirty(guard: PipelineGuard)
      modifies this`storage, guard`dirty
      ensures !guard.dirty
      ensures storage == if old(guard.dirty) then old(storage)[guard.id := guard.pipeline.content] else old(storage)
    {
      if guard.dirty {
        storage := storage[guard.id := guard.pipeline.content];
        guard.dirty := false;
      }
    }

    method DeletePipeline(id: Id)
      requires Listed({})
      modifies this`loaded, this`live, this`storage, this`committed, lru
      ensures Listed({}) && (old(Keyed()) ==> Keyed()) && (old(AllBalanced()) ==> AllBalanced())
      ensures loaded == old(loaded) - {id} && live == old(live) - {id} && storage == old(storage) - {id}
      ensures committed == old(committed) - {id} && id !in lru.keys
      ensures old(FilesOk()) ==> FilesOk()
    {
      lru.RemoveRecord(id);
      loaded := loaded - {id};
      live := live - {id};
      storage := storage - {id};
      committed := committed - {id};
      if old(FilesOk()) {
        forall x ensures FileOk(x) { assert old(FileOk(x)); }
      }
    }
  }
}
