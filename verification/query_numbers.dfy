/** Per-building query numbers (`get_next_query_no`): a new snag gets one
    more than the largest query number among the snags of its building, or 1
    when the building has none. The store is the snag collection in creation
    order. */
module QueryNumbers {
  import opened SnagTypes

  /** The query number of the building's snag that sorts first by query_no
      descending, or None when the building has no snag. */
  function LastQueryNo(store: seq<Snag>, project: string): (m: Option<int>)
    ensures m.None? <==> forall s :: s in store ==> s.project != project
    ensures m.Some? ==> exists s :: s in store && s.project == project && s.queryNo == m.value
    ensures m.Some? ==> forall s :: s in store && s.project == project ==> s.queryNo <= m.value
  {
    if store == [] then None
    else
      var rest := LastQueryNo(store[1..], project);
      assert forall s :: s in store ==> s == store[0] || s in store[1..];
      if store[0].project != project then rest
      else match rest
        case None => Some(store[0].queryNo)
        case Some(q) => Some(if store[0].queryNo > q then store[0].queryNo else q)
  }

  /** The query number the next snag of `project` receives. */
  function NextQueryNo(store: seq<Snag>, project: string): (n: int)
    ensures forall s :: s in store && s.project == project ==> s.queryNo < n
    ensures (forall s :: s in store ==> s.project != project) ==> n == 1
    ensures (exists s :: s in store && s.project == project) ==>
              exists s :: s in store && s.project == project && s.queryNo == n - 1
  {
    match LastQueryNo(store, project)
    case None => 1
    case Some(q) => q + 1
  }

  /** Within every building, query numbers are positive and strictly
      increase in creation order (so they are also unique per building). */
  predicate Numbered(store: seq<Snag>) {
    && (forall s :: s in store ==> s.queryNo >= 1)
    && (forall i, j :: 0 <= i < j < |store| && store[i].project == store[j].project ==>
          store[i].queryNo < store[j].queryNo)
  }

  /** Appending a snag numbered by `NextQueryNo` keeps the store numbered. */
  lemma AppendKeepsNumbered(store: seq<Snag>, s: Snag)
    requires Numbered(store)
    requires s.queryNo == NextQueryNo(store, s.project)
    ensures Numbered(store + [s])
  {
    var t := store + [s];
    forall i, j | 0 <= i < j < |t| && t[i].project == t[j].project
      ensures t[i].queryNo < t[j].queryNo
    {
      if j == |store| {
        assert t[i] in store;
      }
    }
    if exists u :: u in store && u.project == s.project {
      var u :| u in store && u.project == s.project && u.queryNo == s.queryNo - 1;
    }
  }

  /** Removing any snag keeps the store numbered. */
  lemma RemoveKeepsNumbered(store: seq<Snag>, k: nat)
    requires Numbered(store)
    requires k < |store|
    ensures Numbered(store[..k] + store[k + 1..])
  {
    var t := store[..k] + store[k + 1..];
    forall i, j | 0 <= i < j < |t| && t[i].project == t[j].project
      ensures t[i].queryNo < t[j].queryNo
    {
      var i' := if i < k then i else i + 1;
      var j' := if j < k then j else j + 1;
      assert t[i] == store[i'] && t[j] == store[j'];
    }
    forall s | s in t ensures s.queryNo >= 1 {
      var i :| 0 <= i < |t| && t[i] == s;
      assert s == store[if i < k then i else i + 1];
    }
  }

  /** Buildings number independently: adding a snag to one building does not
      change the next number of another. */
  lemma {:induction false} OtherBuildingUnaffected(store: seq<Snag>, s: Snag, project: string)
    requires s.project != project
    ensures LastQueryNo(store + [s], project) == LastQueryNo(store, project)
    ensures NextQueryNo(store + [s], project) == NextQueryNo(store, project)
  {
    if store != [] {
      assert (store + [s])[1..] == store[1..] + [s];
      OtherBuildingUnaffected(store[1..], s, project);
    } else {
      assert (store + [s])[1..] == [];
    }
  }

  /** Numbers can be handed out again: once the snag holding a building's
      highest number is deleted, the next number is at most the deleted one. */
  lemma DeletingTopAllowsReuse(store: seq<Snag>, k: nat)
    requires Numbered(store)
    requires k < |store|
    requires forall s :: s in store && s.project == store[k].project ==> s.queryNo <= store[k].queryNo
    ensures NextQueryNo(store[..k] + store[k + 1..], store[k].project) <= store[k].queryNo
  {
    var t := store[..k] + store[k + 1..];
    var p := store[k].project;
    forall u | u in t && u.project == p ensures u.queryNo < store[k].queryNo {
      var i :| 0 <= i < |t| && t[i] == u;
      var i' := if i < k then i else i + 1;
      assert u == store[i'] && i' != k;
    }
  }
}
