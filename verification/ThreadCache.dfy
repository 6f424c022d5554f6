/** The in-memory thread list and the conversation store it must agree with. */
module ThreadCache {
  import opened Prelude
  import opened Ordering

  /** `id` stands for the place of the thread's UUID string in string order. */
  datatype Thread = Thread(id: nat, updatedAt: int, body: string)

  /** Newest first, the smaller id first among equals. */
  predicate Newer(a: Thread, b: Thread) {
    a.updatedAt > b.updatedAt || (a.updatedAt == b.updatedAt && a.id < b.id)
  }

  /** A store maps every id to a thread with that id. */
  ghost predicate Keyed(store: map<nat, Thread>) {
    forall id <- store :: store[id].id == id
  }

  /** The store's threads, each once, newest first. */
  ghost predicate IsListing(store: map<nat, Thread>, list: seq<Thread>) {
    Ascending(Newer, list) && forall t :: t in list <==> (t.id in store && store[t.id] == t)
  }

  lemma NewerIsOrder()
    ensures StrictOrder(Newer)
  {
  }

  /** A store has one listing only. */
  lemma ListingUnique(store: map<nat, Thread>, a: seq<Thread>, b: seq<Thread>)
    requires IsListing(store, a) && IsListing(store, b)
    ensures a == b
  {
    NewerIsOrder();
    AscendingUnique(Newer, a, b);
  }

  /** In a listing no id occurs twice, newer threads come first, and of equally
      new ones the smaller id. */
  lemma ListingDistinct(store: map<nat, Thread>, list: seq<Thread>)
    requires IsListing(store, list)
    ensures forall i, j :: 0 <= i < j < |list| ==>
      && list[i].id != list[j].id && list[i].updatedAt >= list[j].updatedAt
      && (list[i].updatedAt == list[j].updatedAt ==> list[i].id < list[j].id)
  {
    forall i, j | 0 <= i < j < |list|
      ensures list[i].id != list[j].id
    {
      assert list[i] in list && list[j] in list;
      assert Newer(list[i], list[j]);
    }
  }

  function Without(list: seq<Thread>, id: nat): seq<Thread> {
    if list == [] then []
    else (if list[0].id == id then [] else [list[0]]) + Without(list[1..], id)
  }

  lemma {:induction false} WithoutMembers(list: seq<Thread>, id: nat)
    ensures forall t :: t in Without(list, id) <==> t in list && t.id != id
    ensures forall i :: 0 <= i < |Without(list, id)| ==> Without(list, id)[i] in list && Without(list, id)[i].id != id
  {
    if list != [] {
      WithoutMembers(list[1..], id);
      assert list == [list[0]] + list[1..];
    }
  }

  lemma {:induction false} WithoutAscending(list: seq<Thread>, id: nat)
    requires Ascending(Newer, list)
    ensures Ascending(Newer, Without(list, id))
  {
    if list != [] {
      WithoutAscending(list[1..], id);
      WithoutMembers(list[1..], id);
      var rest := Without(list[1..], id);
      forall i | 0 <= i < |rest|
        ensures Newer(list[0], rest[i])
      {
        assert rest[i] in list[1..];
      }
    }
  }

  /** Removing the id, appending the thread and sorting. */
  function Upserted(list: seq<Thread>, t: Thread): seq<Thread> {
    Sort(Newer, Without(list, t.id) + [t])
  }

  lemma UpsertedMembers(list: seq<Thread>, t: Thread)
    requires Ascending(Newer, list)
    ensures Ascending(Newer, Upserted(list, t))
    ensures forall u :: u in Upserted(list, t) <==> u == t || (u in list && u.id != t.id)
  {
    hide Sort, Without;
    var kept := Without(list, t.id);
    WithoutMembers(list, t.id);
    WithoutAscending(list, t.id);
    NewerIsOrder();
    assert Comparable(Newer, kept + [t]) by {
      forall i | 0 <= i < |kept|
        ensures Newer(kept[i], t) || Newer(t, kept[i])
      {
        assert kept[i].id != t.id;
      }
    }
    SortSorts(Newer, kept + [t]);
    forall u
      ensures u in Upserted(list, t) <==> u in kept || u == t
    {
      assert u in multiset(Upserted(list, t)) <==> u in multiset(kept + [t]);
    }
  }

  /** An upsert of the listing is the listing of the store after a save. */
  lemma UpsertIsSave(store: map<nat, Thread>, list: seq<Thread>, t: Thread)
    requires Keyed(store) && IsListing(store, list)
    ensures IsListing(store[t.id := t], Upserted(list, t))
  {
    hide Upserted;
    UpsertedMembers(list, t);
  }

  // ------------------------------------------------------------- the store

  class InMemoryConversationStore {
    var threads: map<nat, Thread>
    /** The thread the saved workspace has open; none when it is empty. */
    var active: Option<nat>

    /** The saved workspace never has a thread open that is not stored. */
    predicate Anchored()
      reads this
    {
      active.Some? ==> active.value in threads
    }

    constructor ()
      ensures threads == map[] && active == None
    {
      threads, active := map[], None;
    }

    /** All threads in one pass over the dictionary, then sorted. */
    method ListThreads() returns (list: seq<Thread>)
      requires Keyed(threads)
      ensures IsListing(threads, list)
    {
      var values: seq<Thread> := [];
      var left := threads.Keys;
      while left != {}
        invariant left <= threads.Keys
        invariant forall t :: t in values <==> t.id in threads && t.id !in left && threads[t.id] == t
        invariant forall i, j :: 0 <= i < j < |values| ==> values[i].id != values[j].id
        decreases left
      {
        var id :| id in left;
        assert forall i | 0 <= i < |values| :: values[i] in values;
        values := values + [threads[id]];
        left := left - {id};
      }
      NewerIsOrder();
      SortSorts(Newer, values);
      list := Sort(Newer, values);
      forall t
        ensures t in list <==> t in values
      {
        assert t in multiset(list) <==> t in multiset(values);
      }
    }

    method Save(t: Thread)
      modifies this`threads
      ensures threads == old(threads)[t.id := t]
      ensures old(Anchored()) ==> Anchored()
    {
      threads := threads[t.id := t];
    }

    /** Deleting the thread the workspace has open empties the workspace. */
    method DeleteThread(id: nat)
      modifies this
      ensures threads == old(threads) - {id}
      ensures active == if old(active) == Some(id) then None else old(active)
      ensures old(Anchored()) ==> Anchored()
    {
      threads := threads - {id};
      if active == Some(id) { active := None; }
    }

    method DeleteAll()
      modifies this
      ensures threads == map[] && active == None
    {
      threads, active := map[], None;
    }

    /** Drops every thread older than the cutoff and counts them; whatever the
        workspace had open, afterwards it is a stored thread or nothing. */
    method PruneThreads(cutoff: int) returns (count: nat)
      modifies this
      ensures threads == map id | id in old(threads) && old(threads)[id].updatedAt >= cutoff :: old(threads)[id]
      ensures count == |old(threads).Keys - threads.Keys|
      ensures Anchored() && (active == old(active) || active == None)
      ensures old(active).Some? && old(active).value in threads ==> active == old(active)
    {
      var removed := set id | id in threads && threads[id].updatedAt < cutoff;
      ghost var before := threads;
      threads := threads - removed;
      assert before.Keys - threads.Keys == removed;
      count := |removed|;
      if active.Some? && active.value !in threads { active := None; }
    }
  }

  // ------------------------------------------------------------- the cache

  class ThreadList {
    const store: InMemoryConversationStore
    var threads: seq<Thread>

    /** The list is exactly what the store would list. */
    ghost predicate Agrees()
      reads this, store
    {
      Keyed(store.threads) && IsListing(store.threads, threads)
    }

    constructor ()
      ensures Agrees() && store.threads == map[] && fresh(store)
    {
      store := new InMemoryConversationStore();
      threads := [];
    }

    method UpsertInMemory(t: Thread)
      modifies this
      ensures threads == Upserted(old(threads), t)
    {
      threads := Removed(threads, t.id);
      threads := Sort(Newer, threads + [t]);
    }

    static method Removed(list: seq<Thread>, id: nat) returns (r: seq<Thread>)
      ensures r == Without(list, id)
    {
      r := [];
      var i := |list|;
      while i > 0
        invariant 0 <= i <= |list| && r == Without(list[i..], id)
      {
        i := i - 1;
        assert list[i..][1..] == list[i + 1..];
        if list[i].id != id { r := [list[i]] + r; }
      }
      assert list[0..] == list;
    }

    method RefreshThreads()
      requires Keyed(store.threads)
      modifies this
      ensures Agrees()
    {
      threads := store.ListThreads();
    }

    /** A turn's update: the list first, then the store. */
    method SaveUpdatedThread(t: Thread)
      requires Agrees()
      modifies this, store
      ensures Agrees() && store.threads == old(store.threads)[t.id := t] && threads == Upserted(old(threads), t)
    {
      UpsertIsSave(store.threads, threads, t);
      UpsertInMemory(t);
      store.Save(t);
    }

    /** A draft: the store first, then the list. */
    method PersistDraft(t: Thread)
      requires Agrees()
      modifies this, store
      ensures Agrees() && store.threads == old(store.threads)[t.id := t] && threads == Upserted(old(threads), t)
    {
      UpsertIsSave(store.threads, threads, t);
      store.Save(t);
      UpsertInMemory(t);
    }

    /** A new turn: the store first, then the whole list again. */
    method BeginTurn(t: Thread)
      requires Agrees()
      modifies this, store
      ensures Agrees() && store.threads == old(store.threads)[t.id := t] && threads == Upserted(old(threads), t)
    {
      UpsertIsSave(store.threads, threads, t);
      ghost var expected := Upserted(threads, t);
      store.Save(t);
      RefreshThreads();
      ListingUnique(store.threads, threads, expected);
    }

    method DeleteThread(id: nat)
      requires Agrees()
      modifies this, store
      ensures Agrees() && store.threads == old(store.threads) - {id} && threads == Without(old(threads), id)
    {
      WithoutMembers(threads, id);
      WithoutAscending(threads, id);
      ghost var expected := Without(threads, id);
      store.DeleteThread(id);
      RefreshThreads();
      ListingUnique(store.threads, threads, expected);
    }

    method DeleteAllThreads()
      requires Agrees()
      modifies this, store
      ensures Agrees() && store.threads == map[] && threads == []
    {
      store.DeleteAll();
      threads := [];
    }

    method ApplyRetention(cutoff: int)
      requires Agrees()
      modifies this, store
      ensures Agrees()
      ensures forall t :: t in threads <==> t in old(threads) && t.updatedAt >= cutoff
    {
      var count := store.PruneThreads(cutoff);
      RefreshThreads();
    }
  }
}
