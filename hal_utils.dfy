// The UCI HAL's singly linked list of data pointers, and the callback data
// records the HAL keeps on it so that pending waits can be released. The
// nodes are modelled as the sequence of data they hold, head first.
module HalUtils {
  import opened Bytes

  const UWBSTATUS_SUCCESS: u16 := 0x0000
  const UWBSTATUS_FAILED: u16 := 0x00FF

  /** The position of the first node holding `d`, or `|l|` when none does. */
  function FirstIndex<T(==)>(l: seq<T>, d: T): (r: nat)
    ensures r <= |l| && (r < |l| <==> d in l)
    ensures r < |l| ==> l[r] == d
    ensures forall k :: 0 <= k < r ==> l[k] != d
  {
    if l == [] then 0
    else if l[0] == d then 0
    else 1 + FirstIndex(l[1..], d)
  }

  /** `phNxpUciHal_listRemove` on the data: the first node holding `d` is
      unlinked; without one the list is unchanged. */
  function RemoveFirst<T(==)>(l: seq<T>, d: T): seq<T>
  {
    var i := FirstIndex(l, d);
    if i < |l| then l[..i] + l[i + 1..] else l
  }

  /** Removing takes out exactly one occurrence of `d` when there is one
      and keeps the order of the rest. */
  lemma RemoveFirstTakesOne<T>(l: seq<T>, d: T)
    ensures var r := RemoveFirst(l, d);
            (d in l ==> |r| == |l| - 1 && multiset(r) == multiset(l) - multiset{d}) &&
            (d !in l ==> r == l)
  {
    var i := FirstIndex(l, d);
    if i < |l| {
      assert l == l[..i] + [d] + l[i + 1..];
    }
  }

  /** Adding then removing the same fresh data gives the list back. */
  lemma AddThenRemove<T>(l: seq<T>, d: T)
    requires d !in l
    ensures RemoveFirst(l + [d], d) == l
  {
    assert FirstIndex(l + [d], d) == |l| by {
      assert forall k :: 0 <= k < |l| ==> (l + [d])[k] != d;
    }
    assert (l + [d])[..|l|] == l;
  }

  /** `struct listHead`: the nodes' data from `pFirst` on, and whether its
      mutex was created. */
  class ListHead<T(==)> {
    var items: seq<T>
    var mutexCreated: bool

    constructor()
      ensures items == [] && !mutexCreated
    {
      items := [];
      mutexCreated := false;
    }

    /** `phNxpUciHal_listInit`: the list is emptied first; 1 when the mutex
        was created, 0 otherwise. */
    method Init(created: bool) returns (r: int)
      modifies this
      ensures items == [] && mutexCreated == created
      ensures r == (if created then 1 else 0)
    {
      items := [];
      mutexCreated := created;
      r := if created then 1 else 0;
    }

    /** `phNxpUciHal_listAdd`: with a node allocated the data goes to the
        tail and the answer is 1; otherwise nothing changes and it is 0. */
    method Add(d: T, allocOk: bool) returns (r: int)
      modifies this
      ensures allocOk ==> items == old(items) + [d] && r == 1
      ensures !allocOk ==> items == old(items) && r == 0
      ensures mutexCreated == old(mutexCreated)
    {
      if !allocOk {
        return 0;
      }
      items := items + [d];
      r := 1;
    }

    /** `phNxpUciHal_listRemove`: 0 on an empty list or when no node holds
        `d`; otherwise the first node holding it is unlinked and 1. */
    method Remove(d: T) returns (r: int)
      modifies this
      ensures items == RemoveFirst(old(items), d)
      ensures r == (if d in old(items) then 1 else 0)
      ensures mutexCreated == old(mutexCreated)
    {
      if items == [] {
        return 0;
      }
      if items[0] == d {
        items := items[1..];
        return 1;
      }
      var node := 0;
      while node + 1 < |items| && items[node + 1] != d
        invariant node < |items|
        invariant forall k :: 0 <= k <= node ==> items[k] != d
        decreases |items| - node
      {
        node := node + 1;
      }
      if node + 1 == |items| {
        return 0;
      }
      assert FirstIndex(items, d) == node + 1;
      items := items[..node + 1] + items[node + 2..];
      r := 1;
    }

    /** `phNxpUciHal_listGetAndRemoveNext`: 0 on an empty list; otherwise
        the head node is unlinked, its data handed out, and 1. */
    method GetAndRemoveNext() returns (r: int, data: Option<T>)
      modifies this
      ensures old(items) == [] ==> r == 0 && data == None && items == []
      ensures old(items) != [] ==> r == 1 && data == Some(old(items)[0]) && items == old(items)[1..]
      ensures mutexCreated == old(mutexCreated)
    {
      if items == [] {
        return 0, None;
      }
      data := Some(items[0]);
      items := items[1..];
      r := 1;
    }

    /** `phNxpUciHal_listDestroy`: nodes are taken off the head until the
        list is empty, handing out the data in list order; 1 when the mutex
        was deleted, 0 otherwise. */
    method Destroy(deleted: bool) returns (r: int, ghost out: seq<T>)
      modifies this
      ensures items == [] && out == old(items)
      ensures r == (if deleted then 1 else 0)
    {
      var notEmpty := 1;
      out := [];
      while notEmpty != 0
        invariant 0 <= notEmpty <= 1
        invariant notEmpty == 0 ==> items == []
        invariant out + items == old(items)
        decreases |items| + notEmpty
      {
        var data;
        ghost var before := items;
        notEmpty, data := GetAndRemoveNext();
        if data.Some? {
          out := out + [data.value];
          assert before == [data.value] + items;
        }
      }
      r := if deleted then 1 else 0;
      if deleted {
        mutexCreated := false;
      }
    }
  }

  /** `phNxpUciHal_Sem_t`: a semaphore (its count of posts and whether it
      exists), the status the callback stores and the callback's context. */
  class CbData {
    var semCreated: bool
    var posts: nat
    var status: u16
    var context: nat

    constructor()
      ensures !semCreated && posts == 0
    {
      semCreated, posts, status, context := false, 0, UWBSTATUS_SUCCESS, 0;
    }
  }

  /** The part of `phNxpUciHal_Monitor_t` the callback data lives in. */
  class Monitor {
    const semList: ListHead<CbData>

    constructor()
      ensures semList.items == [] && fresh(semList)
    {
      semList := new ListHead<CbData>();
    }

    /** `phNxpUciHal_init_cb_data`: without a semaphore it fails and changes
        nothing; otherwise the status starts as FAILED, the context is
        stored, and the record is added to the list (an allocation failure
        there is only logged). */
    method InitCbData(cb: CbData, context: nat, semOk: bool, allocOk: bool) returns (status: u16)
      modifies cb, semList
      ensures !semOk ==> status == UWBSTATUS_FAILED && semList.items == old(semList.items) &&
                         cb.semCreated == old(cb.semCreated) && cb.status == old(cb.status) && cb.context == old(cb.context)
      ensures semOk ==> status == UWBSTATUS_SUCCESS && cb.semCreated && cb.posts == 0 &&
                        cb.status == UWBSTATUS_FAILED && cb.context == context &&
                        semList.items == old(semList.items) + (if allocOk then [cb] else [])
    {
      if !semOk {
        return UWBSTATUS_FAILED;
      }
      cb.semCreated, cb.posts := true, 0;
      cb.status := UWBSTATUS_FAILED;
      cb.context := context;
      var added := semList.Add(cb, allocOk);
      status := UWBSTATUS_SUCCESS;
    }

    /** `phNxpUciHal_cleanup_cb_data`: the semaphore is deleted and the
        record taken off the list. */
    method CleanupCbData(cb: CbData)
      modifies cb, semList
      ensures !cb.semCreated && semList.items == RemoveFirst(old(semList.items), cb)
    {
      cb.semCreated := false;
      var removed := semList.Remove(cb);
    }

    /** One record released: its status becomes FAILED and its semaphore
        is posted. */
    static method Release(cb: CbData)
      modifies cb
      ensures cb.status == UWBSTATUS_FAILED && cb.posts == old(cb.posts) + 1
      ensures cb.semCreated == old(cb.semCreated) && cb.context == old(cb.context)
    {
      cb.status := UWBSTATUS_FAILED;
      cb.posts := cb.posts + 1;
    }

    /** `phNxpUciHal_releaseall_cb_data`: every record on the list is taken
        off, marked FAILED and its semaphore posted, once per time it was
        on the list. */
    method ReleaseAll()
      modifies semList, set c | c in semList.items
      ensures semList.items == []
      ensures forall c :: c in old(semList.items) ==> c.status == UWBSTATUS_FAILED
      ensures forall c :: c in old(semList.items) ==> c.posts == old(c.posts) + multiset(old(semList.items))[c]
    {
      ghost var all := semList.items;
      ghost var taken: seq<CbData> := [];
      var more := 1;
      while more != 0
        invariant 0 <= more <= 1
        invariant taken + semList.items == all
        invariant more == 0 ==> semList.items == []
        invariant forall c :: c in taken ==> c.status == UWBSTATUS_FAILED
        invariant forall c :: c in all ==> c.posts == old(c.posts) + multiset(taken)[c]
        decreases |semList.items| + more
      {
        var data;
        ghost var before := semList.items;
        more, data := semList.GetAndRemoveNext();
        if data.Some? {
          var cb := data.value;
          assert before == [cb] + semList.items;
          Release(cb);
          assert multiset(taken + [cb]) == multiset(taken) + multiset{cb};
          taken := taken + [cb];
        }
      }
    }
  }
}
