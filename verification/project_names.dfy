/** `get_project_names`: the distinct, non-empty building names of all snags,
    in ascending order. Python orders strings by code point, lexicographically. */
module ProjectNames {
  import opened SnagTypes

  /** Python's `<` on strings: a proper prefix comes first, otherwise the
      first differing character decides. */
  predicate Below(a: string, b: string) {
    if a == [] then b != []
    else if b == [] then false
    else if a[0] != b[0] then a[0] < b[0]
    else Below(a[1..], b[1..])
  }

  lemma {:induction false} BelowIrreflexive(a: string)
    ensures !Below(a, a)
  {
    if a != [] {
      BelowIrreflexive(a[1..]);
    }
  }

  lemma {:induction false} BelowTransitive(a: string, b: string, c: string)
    requires Below(a, b) && Below(b, c)
    ensures Below(a, c)
  {
    if a != [] && b != [] && c != [] && a[0] == b[0] && b[0] == c[0] {
      BelowTransitive(a[1..], b[1..], c[1..]);
    }
  }

  lemma {:induction false} BelowTotal(a: string, b: string)
    requires a != b
    ensures Below(a, b) || Below(b, a)
  {
    if a != [] && b != [] && a[0] == b[0] {
      assert a == [a[0]] + a[1..] && b == [b[0]] + b[1..];
      BelowTotal(a[1..], b[1..]);
    }
  }

  /** Ascending with no repeats. */
  predicate StrictlySorted(s: seq<string>) {
    forall i, j :: 0 <= i < j < |s| ==> Below(s[i], s[j])
  }

  /** Puts `x` into its place in an ascending list, unless it is there. */
  function Insert(s: seq<string>, x: string): seq<string> {
    if s == [] then [x]
    else if x == s[0] then s
    else if Below(x, s[0]) then [x] + s
    else [s[0]] + Insert(s[1..], x)
  }

  lemma {:induction false} InsertKeepsSorted(s: seq<string>, x: string)
    requires StrictlySorted(s)
    ensures StrictlySorted(Insert(s, x))
    ensures forall y :: y in Insert(s, x) <==> y in s || y == x
  {
    if s == [] {
    } else if x == s[0] {
    } else if Below(x, s[0]) {
      var r := [x] + s;
      forall i, j | 0 <= i < j < |r| ensures Below(r[i], r[j]) {
        if i == 0 && j > 1 {
          BelowTransitive(x, s[0], s[j - 1]);
        }
      }
    } else {
      BelowTotal(x, s[0]);
      var tail := Insert(s[1..], x);
      InsertKeepsSorted(s[1..], x);
      var r := [s[0]] + tail;
      forall i, j | 0 <= i < j < |r| ensures Below(r[i], r[j]) {
        if i == 0 {
          assert r[j] in tail;
          if r[j] != x {
            var k :| 0 <= k < |s[1..]| && s[1..][k] == r[j];
            assert s[k + 1] == r[j];
          }
        }
      }
      assert forall y :: y in s <==> y == s[0] || y in s[1..];
    }
  }

  /** The names `get_project_names` returns: `distinct`, the falsy (empty)
      name dropped, then `sorted`. */
  function Names(store: seq<Snag>): seq<string> {
    if store == [] then []
    else
      var rest := Names(store[..|store| - 1]);
      var p := store[|store| - 1].project;
      if p == "" then rest else Insert(rest, p)
  }

  /** The result lists each non-empty building name exactly once, in
      ascending order. */
  lemma {:induction false} NamesSortedAndComplete(store: seq<Snag>)
    ensures StrictlySorted(Names(store))
    ensures forall p :: p in Names(store) <==> p != "" && exists s :: s in store && s.project == p
  {
    if store != [] {
      var init := store[..|store| - 1];
      var last := store[|store| - 1];
      NamesSortedAndComplete(init);
      if last.project != "" {
        InsertKeepsSorted(Names(init), last.project);
      }
      assert store == init + [last];
      forall p ensures p in Names(store) <==> p != "" && exists s :: s in store && s.project == p {
        if p != "" && (exists s :: s in store && s.project == p) {
          var s :| s in store && s.project == p;
          if s != last {
            assert s in init;
          }
        }
      }
    }
  }

  /** Consequently no name is listed twice. */
  lemma NamesAreDistinct(store: seq<Snag>)
    ensures NoDuplicates(Names(store))
  {
    NamesSortedAndComplete(store);
    var n := Names(store);
    forall i, j | 0 <= i < j < |n| ensures n[i] != n[j] {
      if n[i] == n[j] {
        BelowIrreflexive(n[i]);
      }
    }
  }
}
