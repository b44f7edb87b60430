/** The cache of expanded init definitions: two growing arrays searched from the front. */
module InitCache {
  import opened Params

  /** What one cache entry stands for. */
  datatype Entry = Entry(key: string, texts: seq<string>)

  /** The parameters found for a key: those of its first entry that has any. */
  function FirstMatch(entries: seq<Entry>, key: string): seq<string> {
    if |entries| == 0 then []
    else if entries[0].key == key && |entries[0].texts| > 0 then entries[0].texts
    else FirstMatch(entries[1..], key)
  }

  /** An insertion is seen only by its own key and only while nothing was found for that key. */
  lemma {:induction false} FirstMatchAppend(entries: seq<Entry>, e: Entry, key: string)
    ensures FirstMatch(entries + [e], key)
         == if |FirstMatch(entries, key)| > 0 || e.key != key then FirstMatch(entries, key) else e.texts
  {
    if |entries| > 0 {
      assert (entries + [e])[1..] == entries[1..] + [e];
      FirstMatchAppend(entries[1..], e, key);
    }
  }

  lemma {:induction false} FirstMatchSkip(entries: seq<Entry>, i: nat, key: string)
    requires i <= |entries|
    requires forall k | 0 <= k < i :: entries[k].key != key || |entries[k].texts| == 0
    ensures FirstMatch(entries, key) == FirstMatch(entries[i..], key)
  {
    if i > 0 {
      FirstMatchSkip(entries[1..], i - 1, key);
      assert entries[1..][i-1..] == entries[i..];
    } else {
      assert entries[0..] == entries;
    }
  }

  lemma FirstMatchAt(entries: seq<Entry>, i: nat, key: string)
    requires i < |entries| && entries[i].key == key && |entries[i].texts| > 0
    requires forall k | 0 <= k < i :: entries[k].key != key || |entries[k].texts| == 0
    ensures FirstMatch(entries, key) == entries[i].texts
  {
    FirstMatchSkip(entries, i, key);
  }

  lemma FirstMatchNone(entries: seq<Entry>, key: string)
    requires forall k | 0 <= k < |entries| :: entries[k].key != key || |entries[k].texts| == 0
    ensures FirstMatch(entries, key) == []
  {
    FirstMatchSkip(entries, |entries|, key);
  }

  class Cache {
    var count: nat
    var alloc: nat
    var keys: array<string>
    var lists: array<Param?>
    /** The nodes of each cached list. */
    ghost var nodes: seq<seq<Param>>
    /** Entries moved by growth, and insertions, since the start and before the last clearing. */
    ghost var moved: nat
    ghost var movedBefore: nat
    ghost var insertsBefore: nat

    ghost function Nodes(): set<Param>
      reads this
    {
      AllNodes(nodes)
    }

    ghost function Repr(): set<object>
      reads this
    {
      {this, keys, lists} + Nodes()
    }

    ghost predicate Valid()
      reads Repr()
    {
      && keys.Length == lists.Length == alloc && |nodes| == count <= alloc
      && (forall i | 0 <= i < count :: Linked(lists[i], nodes[i]))
      && movedBefore <= 2 * insertsBefore && moved <= alloc && moved <= 2 * count
    }

    /** The insertions so far and the entries that growth has moved so far. */
    ghost function Inserts(): nat
      reads this
    {
      insertsBefore + count
    }

    ghost function Moves(): nat
      reads this
    {
      movedBefore + moved
    }

    ghost function Entries(): (r: seq<Entry>)
      requires Valid()
      reads Repr()
      ensures |r| == count
    {
      seq(count, i requires 0 <= i < count && Valid() reads Repr() => Entry(keys[i], Texts(nodes[i])))
    }

    constructor ()
      ensures Valid() && fresh(Repr()) && Entries() == [] && Inserts() == Moves() == 0
    {
      count, alloc := 0, 0;
      keys := new string[0];
      lists := new Param?[0];
      nodes := [];
      moved, movedBefore, insertsBefore := 0, 0, 0;
    }

    /** Growth moves at most two old entries per insertion, in each of the two arrays. */
    lemma MovesBounded()
      requires Valid()
      ensures Moves() <= 2 * Inserts()
    {
    }

    /** Forgets all entries. */
    method Clear()
      requires Valid()
      modifies this
      ensures Valid() && Entries() == [] && fresh(Repr() - old(Repr()))
      ensures Inserts() == old(Inserts()) && Moves() == old(Moves())
    {
      if alloc > 0 {
        movedBefore, insertsBefore := movedBefore + moved, insertsBefore + count;
        moved := 0;
        count, alloc := 0, 0;
        keys := new string[0];
        lists := new Param?[0];
        nodes := [];
      }
    }

    /** A fresh copy of what was inserted first for the key; null if there is nothing. */
    method Search(key: string) returns (result: Param?, ghost copies: seq<Param>)
      requires Valid()
      ensures Linked(result, copies) && Texts(copies) == FirstMatch(Entries(), key)
      ensures forall i | 0 <= i < |copies| :: fresh(copies[i]) && !copies[i].used
    {
      result, copies := null, [];
      EmptyList();
      ghost var entries := Entries();
      var i := 0;
      while result == null && i < count
        invariant 0 <= i <= count
        invariant result == null ==> copies == []
        invariant result == null ==> forall k | 0 <= k < i :: entries[k].key != key || |entries[k].texts| == 0
        invariant Linked(result, copies)
        invariant result != null ==> Texts(copies) == FirstMatch(entries, key)
        invariant forall k | 0 <= k < |copies| :: fresh(copies[k]) && !copies[k].used
      {
        if key == keys[i] {
          result, copies := Clone(lists[i], nodes[i]);
          HeadFacts(result, copies);
          if result != null {
            FirstMatchAt(entries, i, key);
          }
        }
        i := i + 1;
      }
      if result == null {
        FirstMatchNone(entries, key);
        assert Texts([]) == [];
      }
      assert Entries() == entries;
    }

    /** Makes room for another entry. */
    method Grow()
      requires Valid() && count == alloc
      modifies this
      ensures Valid() && count < alloc && count == old(count) && nodes == old(nodes)
      ensures Entries() == old(Entries()) && fresh(keys) && fresh(lists)
      ensures Inserts() == old(Inserts()) && Moves() == old(Moves()) + count
      ensures movedBefore == old(movedBefore) && insertsBefore == old(insertsBefore)
    {
      var size := alloc * 2 + 15;
      var keysNew := new string[size](_ => "");
      var listsNew := new Param?[size](_ => null);
      var i := 0;
      while i < count
        modifies keysNew, listsNew
        invariant 0 <= i <= count
        invariant forall k | 0 <= k < i :: keysNew[k] == keys[k] && listsNew[k] == lists[k]
      {
        keysNew[i], listsNew[i] := keys[i], lists[i];
        i := i + 1;
      }
      moved := moved + count;
      keys, lists, alloc := keysNew, listsNew, size;
    }

    /** Puts an entry behind the last one. */
    method Store(key: string, copy: Param?, ghost copies: seq<Param>)
      requires Valid() && count < alloc && Linked(copy, copies) && moved <= 2 * count
      modifies this`count, this`nodes, keys, lists
      ensures Valid() && Nodes() == old(Nodes()) + (set p | p in copies)
      ensures Entries() == old(Entries()) + [Entry(key, Texts(copies))]
    {
      ghost var was := nodes;
      hide Linked;
      keys[count] := key;
      lists[count] := copy;
      nodes := nodes + [copies];
      count := count + 1;
      assert forall i | 0 <= i < count - 1 :: nodes[i] == was[i];
      assert nodes[count-1] == copies;
      NodesSnoc(was, copies);
    }

    /** Adds a copy of the list under the key. */
    method Insert(key: string, list: Param?, ghost listNodes: seq<Param>)
      requires Valid() && Linked(list, listNodes)
      modifies this, keys, lists
      ensures Valid() && fresh(Repr() - old(Repr()))
      ensures Entries() == old(Entries()) + [Entry(key, Texts(listNodes))]
      ensures Inserts() == old(Inserts()) + 1
    {
      hide Linked;
      if count == alloc {
        Grow();
      }
      var copy, copies := Clone(list, listNodes);
      Store(key, copy, copies);
    }
  }

  ghost function AllNodes(nodes: seq<seq<Param>>): set<Param> {
    set i, k | 0 <= i < |nodes| && 0 <= k < |nodes[i]| :: nodes[i][k]
  }

  lemma NodesSnoc(nodes: seq<seq<Param>>, more: seq<Param>)
    ensures AllNodes(nodes + [more]) == AllNodes(nodes) + (set p | p in more)
  {
    var all := nodes + [more];
    forall p | p in AllNodes(nodes) ensures p in AllNodes(all) {
      var i, k :| 0 <= i < |nodes| && 0 <= k < |nodes[i]| && nodes[i][k] == p;
      assert all[i][k] == p;
    }
    forall p | p in more ensures p in AllNodes(all) {
      assert all[|nodes|] == more;
    }
  }
}
