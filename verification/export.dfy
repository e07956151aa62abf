/** The shared part of the Excel and PDF exports: which snags are selected,
    how they are grouped into one section (sheet) per building, and the
    sheet title each building gets. */
module Export {
  import opened SnagTypes
  import Access

  /** The optional parameters of both export endpoints; falsy ones add no
      condition. */
  datatype ExportFilter = ExportFilter(status: Option<SnagStatus>, project: Option<string>)

  predicate Selected(f: ExportFilter, s: Snag) {
    && (f.status.Some? ==> s.status == f.status.value)
    && (Given(f.project) ==> s.project == f.project.value)
  }

  /** The selected snags, in creation order. */
  function SelectedRows(store: seq<Snag>, f: ExportFilter): (r: seq<Snag>)
    ensures forall s :: s in r <==> s in store && Selected(f, s)
    ensures |r| <= |store|
  {
    if store == [] then []
    else
      var rest := SelectedRows(store[1..], f);
      assert forall s :: s in store <==> s == store[0] || s in store[1..];
      (if Selected(f, store[0]) then [store[0]] else []) + rest
  }

  /** The role check and the query of both export endpoints: managers and
      authorities only, then every snag the filter selects. */
  function ExportRows(store: seq<Snag>, caller: Caller, f: ExportFilter): (r: Result<seq<Snag>, HttpError>)
    ensures r.Err? <==> caller.role !in Access.ExportRoles
    ensures r.Err? ==> r.error == NotEnoughPermissions
    ensures r.Ok? ==> forall s :: s in r.value <==> s in store && Selected(f, s)
  {
    match Access.RequireRole(Access.ExportRoles, caller)
    case Err(e) => Err(e)
    case Ok(_) => Ok(SelectedRows(store, f))
  }

  /** Sorted by building, then by query number: the order the export query
      asks the database for. Only the first key matters for grouping. */
  predicate SortedByBuilding(snags: seq<Snag>) {
    forall i, j :: 0 <= i < j < |snags| && snags[i].project == snags[j].project ==>
      forall k :: i <= k <= j ==> snags[k].project == snags[i].project
  }

  /** The buildings in order of first appearance: the key order of
      `snags_by_project`. */
  function Buildings(snags: seq<Snag>): seq<string> {
    if snags == [] then []
    else
      var keys := Buildings(snags[..|snags| - 1]);
      var p := snags[|snags| - 1].project;
      if p in keys then keys else keys + [p]
  }

  /** The rows of one building, in input order: `snags_by_project[p]`. */
  function Rows(snags: seq<Snag>, p: string): seq<Snag> {
    if snags == [] then []
    else
      var last := snags[|snags| - 1];
      Rows(snags[..|snags| - 1], p) + (if last.project == p then [last] else [])
  }

  /** The sections in key order, one after the other. */
  function Sections(keys: seq<string>, snags: seq<Snag>): seq<Snag> {
    if keys == [] then [] else Sections(keys[..|keys| - 1], snags) + Rows(snags, keys[|keys| - 1])
  }

  /** Every building appears as a key exactly once. */
  lemma {:induction false} BuildingsAreTheProjects(snags: seq<Snag>)
    ensures NoDuplicates(Buildings(snags))
    ensures forall p :: p in Buildings(snags) <==> exists s :: s in snags && s.project == p
  {
    if snags != [] {
      var init := snags[..|snags| - 1];
      var last := snags[|snags| - 1];
      BuildingsAreTheProjects(init);
      assert snags == init + [last];
      forall p ensures p in Buildings(snags) <==> exists s :: s in snags && s.project == p {
        if exists s :: s in snags && s.project == p {
          var s :| s in snags && s.project == p;
          if s != last {
            assert s in init;
          }
        }
      }
    }
  }

  /** A building's section holds exactly its snags, in input order. */
  lemma {:induction false} RowsAreTheBuilding(snags: seq<Snag>, p: string)
    ensures forall s :: s in Rows(snags, p) <==> s in snags && s.project == p
    ensures Rows(snags, p) == [] <==> forall s :: s in snags ==> s.project != p
  {
    if snags != [] {
      var init := snags[..|snags| - 1];
      RowsAreTheBuilding(init, p);
      assert snags == init + [snags[|snags| - 1]];
    }
  }

  /** The last snag's building is the last key, when snags are grouped by building. */
  lemma {:induction false} LastKeyIsLastBuilding(snags: seq<Snag>)
    requires snags != [] && SortedByBuilding(snags)
    ensures Buildings(snags) != [] && Buildings(snags)[|Buildings(snags)| - 1] == snags[|snags| - 1].project
  {
    var init := snags[..|snags| - 1];
    var last := snags[|snags| - 1];
    var keys := Buildings(init);
    if last.project in keys {
      BuildingsAreTheProjects(init);
      var s :| s in init && s.project == last.project;
      var i :| 0 <= i < |init| && init[i] == s;
      assert init[|init| - 1].project == last.project;
      LastKeyIsLastBuilding(init);
    }
  }

  /** Adding a snag of another building leaves a key's section unchanged. */
  lemma {:induction false} SectionsIgnoreOtherBuilding(keys: seq<string>, init: seq<Snag>, x: Snag)
    requires x.project !in keys
    ensures Sections(keys, init + [x]) == Sections(keys, init)
  {
    if keys != [] {
      assert (init + [x])[..|init|] == init;
      SectionsIgnoreOtherBuilding(keys[..|keys| - 1], init, x);
    }
  }

  /** The step of `GroupingKeepsSortedOrder` for a snag of the last building. */
  lemma SectionsExtendLastBuilding(init: seq<Snag>, x: Snag)
    requires SortedByBuilding(init + [x])
    requires Sections(Buildings(init), init) == init
    requires x.project in Buildings(init)
    ensures Sections(Buildings(init + [x]), init + [x]) == init + [x]
  {
    var snags := init + [x];
    assert snags[..|snags| - 1] == init;
    var keys := Buildings(init);
    BuildingsAreTheProjects(init);
    assert Buildings(snags) == keys;
    LastKeyIsLastBuilding(snags);
    var front := keys[..|keys| - 1];
    assert x.project !in front by {
      assert forall i :: 0 <= i < |front| ==> front[i] == keys[i] != keys[|keys| - 1];
    }
    SectionsIgnoreOtherBuilding(front, init, x);
    calc {
      Sections(keys, snags);
      Sections(front, snags) + Rows(snags, x.project);
      Sections(front, init) + (Rows(init, x.project) + [x]);
      (Sections(front, init) + Rows(init, x.project)) + [x];
      Sections(keys, init) + [x];
    }
  }

  /** The step of `GroupingKeepsSortedOrder` for a snag of a new building. */
  lemma SectionsAddNewBuilding(init: seq<Snag>, x: Snag)
    requires Sections(Buildings(init), init) == init
    requires x.project !in Buildings(init)
    ensures Sections(Buildings(init + [x]), init + [x]) == init + [x]
  {
    var snags := init + [x];
    assert snags[..|snags| - 1] == init;
    var keys := Buildings(init);
    BuildingsAreTheProjects(init);
    assert Buildings(snags) == keys + [x.project];
    SectionsIgnoreOtherBuilding(keys, init, x);
    assert Rows(init, x.project) == [] by {
      RowsAreTheBuilding(init, x.project);
    }
    assert (keys + [x.project])[..|keys|] == keys;
    calc {
      Sections(keys + [x.project], snags);
      Sections(keys, snags) + Rows(snags, x.project);
      Sections(keys, init) + [x];
    }
  }

  /** Grouping a list sorted by building loses no row and keeps the order:
      the sections, read in key order, are the input itself. */
  lemma {:induction false} GroupingKeepsSortedOrder(snags: seq<Snag>)
    requires SortedByBuilding(snags)
    ensures Sections(Buildings(snags), snags) == snags
  {
    if snags != [] {
      var init := snags[..|snags| - 1];
      var x := snags[|snags| - 1];
      assert snags == init + [x];
      assert SortedByBuilding(init);
      GroupingKeepsSortedOrder(init);
      if x.project in Buildings(init) {
        SectionsExtendLastBuilding(init, x);
      } else {
        SectionsAddNewBuilding(init, x);
      }
    }
  }

  /** The grouping loop of both exports: `snags_by_project`, as the list of
      keys in insertion order and the map from key to rows. */
  method GroupByBuilding(snags: seq<Snag>) returns (keys: seq<string>, groups: map<string, seq<Snag>>)
    ensures keys == Buildings(snags)
    ensures groups.Keys == set p | p in keys
    ensures forall p :: p in groups ==> groups[p] == Rows(snags, p)
  {
    keys := [];
    groups := map[];
    for i := 0 to |snags|
      invariant keys == Buildings(snags[..i])
      invariant groups.Keys == set p | p in keys
      invariant forall p :: p in groups ==> groups[p] == Rows(snags[..i], p)
    {
      var p := snags[i].project;
      assert snags[..i + 1][..i] == snags[..i];
      assert forall q :: Rows(snags[..i + 1], q) == Rows(snags[..i], q) + (if p == q then [snags[i]] else []);
      if p !in groups {
        BuildingsAreTheProjects(snags[..i]);
        RowsAreTheBuilding(snags[..i], p);
        assert Rows(snags[..i], p) == [];
        keys := keys + [p];
        groups := groups[p := []];
      }
      groups := groups[p := groups[p] + [snags[i]]];
    }
    assert snags[..|snags|] == snags;
  }

  /** An export restricted to one building produces one section, or none
      when nothing matched. */
  lemma {:induction false} OneBuildingOneSection(rows: seq<Snag>, f: ExportFilter)
    requires Given(f.project)
    requires forall s :: s in rows ==> Selected(f, s)
    ensures Buildings(rows) == if rows == [] then [] else [f.project.value]
  {
    if rows != [] {
      var init := rows[..|rows| - 1];
      assert forall s :: s in init ==> s in rows;
      OneBuildingOneSection(init, f);
      assert rows[|rows| - 1] in rows;
    }
  }

  /** Excel's limit on sheet names. */
  const SheetTitleLimit: nat := 31

  /** `project[:31]` */
  function SheetTitle(project: string): (t: string)
    ensures |t| <= SheetTitleLimit
    ensures t <= project
    ensures |project| <= SheetTitleLimit ==> t == project
    ensures |project| > SheetTitleLimit ==> |t| == SheetTitleLimit
  {
    if |project| <= SheetTitleLimit then project else project[..SheetTitleLimit]
  }

  /** Two buildings whose names share their first 31 characters get the same
      sheet title. */
  lemma SheetTitlesCanCollide()
    ensures var a := "North Wing Residential Block 12 - Level 1";
            var b := "North Wing Residential Block 12 - Level 2";
            a != b && SheetTitle(a) == SheetTitle(b)
  {
    var a := "North Wing Residential Block 12 - Level 1";
    var b := "North Wing Residential Block 12 - Level 2";
    assert a[..SheetTitleLimit] == b[..SheetTitleLimit];
    assert a[|a| - 1] != b[|b| - 1];
  }
}
