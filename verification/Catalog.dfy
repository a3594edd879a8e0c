/** The per-key model catalog: the models on Online workers that the key may run inference on
    (internal/httpapi/models.go catalog). */
module Catalog {
  import opened Ordering
  import opened KeyService
  import opened Authz
  import opened Fleet

  datatype Entry = Entry(name: string, digest: string, workers: seq<string>)

  datatype Agg = Agg(digest: string, workers: set<string>)

  function Name(e: Entry): string { e.name }

  function Itself(s: string): string { s }

  // ----- what the catalog is about -----

  predicate Offers(models: seq<Model>, name: string) { exists m :: m in models && m.name == name }

  predicate Serves(w: Worker, name: string) { w.status == Online && Offers(w.models, name) }

  predicate Served(fleet: seq<Worker>, name: string) { exists w :: w in fleet && Serves(w, name) }

  function ServerIds(fleet: seq<Worker>, name: string): set<string> {
    set w | w in fleet && Serves(w, name) :: w.id
  }

  function Either(a: string, b: string): string { if a == "" then b else a }

  /** The first non-empty digest a worker reports under a name. */
  function OwnDigest(models: seq<Model>, name: string): string {
    if models == [] then ""
    else
      var last := models[|models| - 1];
      Either(OwnDigest(models[..|models| - 1], name), if last.name == name then last.digest else "")
  }

  function DigestOf(w: Worker, name: string): string {
    if w.status == Online then OwnDigest(w.models, name) else ""
  }

  /** The first non-empty digest in fleet order. */
  function FirstDigest(fleet: seq<Worker>, name: string): string {
    if fleet == [] then ""
    else Either(FirstDigest(fleet[..|fleet| - 1], name), DigestOf(fleet[|fleet| - 1], name))
  }

  function Names(out: seq<Entry>): set<string> { set e | e in out :: e.name }

  /** The permission-filtered catalog of a fleet, with its entries as the digest function says. */
  ghost predicate IsCatalog(fleet: seq<Worker>, key: APIKey, out: seq<Entry>) {
    && StrictlySorted(Name, out)
    && (forall name :: name in Names(out) <==> Served(fleet, name) && May(key, name, Infer))
    && (forall e :: e in out ==> IsEntry(fleet, e))
  }

  ghost predicate IsEntry(fleet: seq<Worker>, e: Entry) {
    && StrictlySorted(Itself, e.workers)
    && (forall id :: id in e.workers <==> id in ServerIds(fleet, e.name))
    && e.digest == FirstDigest(fleet, e.name)
  }

  // ----- the aggregation loops -----

  function Lookup(byName: map<string, Agg>, name: string): Agg {
    if name in byName then byName[name] else Agg("", {})
  }

  /** byName is the aggregate of a fleet. */
  ghost predicate Aggregates(fleet: seq<Worker>, byName: map<string, Agg>) {
    forall name ::
      && (name in byName <==> Served(fleet, name))
      && Lookup(byName, name) == Agg(FirstDigest(fleet, name), ServerIds(fleet, name))
  }

  /** What the aggregate holds under a name once a worker's models have been added to it. */
  function Absorbed(before: Agg, id: string, models: seq<Model>, name: string): Agg {
    Agg(Either(before.digest, OwnDigest(models, name)),
        before.workers + (if Offers(models, name) then {id} else {}))
  }

  /** after is before with a worker's models added to it. */
  ghost predicate Absorbs(before: map<string, Agg>, after: map<string, Agg>, id: string, models: seq<Model>) {
    forall name ::
      && (name in after <==> name in before || Offers(models, name))
      && Lookup(after, name) == Absorbed(Lookup(before, name), id, models, name)
  }

  /** One Online worker's models go into the aggregate. */
  method AddWorker(byName: map<string, Agg>, wk: Worker) returns (r: map<string, Agg>)
    ensures Absorbs(byName, r, wk.id, wk.models)
  {
    r := byName;
    var i := 0;
    while i < |wk.models|
      invariant 0 <= i <= |wk.models|
      invariant Absorbs(byName, r, wk.id, wk.models[..i])
    {
      AbsorbNext(byName, r, wk.id, wk.models, i);
      r := AddOne(r, wk.id, wk.models[i]);
      i := i + 1;
    }
    assert wk.models[..i] == wk.models;
  }

  method AddOne(byName: map<string, Agg>, id: string, m: Model) returns (r: map<string, Agg>)
    ensures r == AddModel(byName, id, m)
  {
    r := byName;
    if m.name !in r { r := r[m.name := Agg("", {})]; }
    if r[m.name].digest == "" { r := r[m.name := r[m.name].(digest := m.digest)]; }
    r := r[m.name := r[m.name].(workers := r[m.name].workers + {id})];
  }

  function AddModel(byName: map<string, Agg>, id: string, m: Model): map<string, Agg> {
    var a := Lookup(byName, m.name);
    byName[m.name := Agg(Either(a.digest, m.digest), a.workers + {id})]
  }

  lemma AbsorbNext(before: map<string, Agg>, now: map<string, Agg>, id: string, models: seq<Model>, i: nat)
    requires i < |models|
    requires Absorbs(before, now, id, models[..i])
    ensures Absorbs(before, AddModel(now, id, models[i]), id, models[..i + 1])
  {
    var after := AddModel(now, id, models[i]);
    forall name
      ensures name in after <==> name in before || Offers(models[..i + 1], name)
      ensures Lookup(after, name) == Absorbed(Lookup(before, name), id, models[..i + 1], name)
    {
      OffersNext(models, i, name);
      assert Lookup(now, name) == Absorbed(Lookup(before, name), id, models[..i], name);
    }
  }

  lemma OffersNext(models: seq<Model>, i: nat, name: string)
    requires i < |models|
    ensures Offers(models[..i + 1], name) <==> Offers(models[..i], name) || models[i].name == name
    ensures OwnDigest(models[..i + 1], name)
         == Either(OwnDigest(models[..i], name), if models[i].name == name then models[i].digest else "")
  {
    assert models[..i + 1][..i] == models[..i];
    assert models[..i + 1] == models[..i] + [models[i]];
    assert models[i] in models[..i + 1];
  }

  lemma ServedSnoc(fleet: seq<Worker>, w: Worker, name: string)
    ensures Served(fleet + [w], name) <==> Served(fleet, name) || Serves(w, name)
    ensures ServerIds(fleet + [w], name) == ServerIds(fleet, name) + (if Serves(w, name) then {w.id} else {})
    ensures FirstDigest(fleet + [w], name) == Either(FirstDigest(fleet, name), DigestOf(w, name))
  {
    assert (fleet + [w])[..|fleet|] == fleet;
    assert w in fleet + [w];
  }

  method Aggregate(fleet: seq<Worker>) returns (byName: map<string, Agg>)
    ensures Aggregates(fleet, byName)
  {
    byName := map[];
    var i := 0;
    while i < |fleet|
      invariant 0 <= i <= |fleet|
      invariant Aggregates(fleet[..i], byName)
    {
      ghost var before := byName;
      if fleet[i].status == Online { byName := AddWorker(byName, fleet[i]); }
      assert fleet[..i + 1] == fleet[..i] + [fleet[i]];
      forall name
        ensures name in byName <==> Served(fleet[..i + 1], name)
        ensures Lookup(byName, name) == Agg(FirstDigest(fleet[..i + 1], name), ServerIds(fleet[..i + 1], name))
      {
        ServedSnoc(fleet[..i], fleet[i], name);
        assert Lookup(before, name) == Agg(FirstDigest(fleet[..i], name), ServerIds(fleet[..i], name));
      }
      i := i + 1;
    }
    assert fleet[..i] == fleet;
  }

  lemma IdsNext(r: seq<string>, id: string)
    requires DistinctKeys(Itself, r) && id !in r
    ensures DistinctKeys(Itself, r + [id]) && forall x :: x in r + [id] <==> x in r || x == id
  {
    forall i, j | 0 <= i < j < |r + [id]| ensures Itself((r + [id])[i]) != Itself((r + [id])[j]) {
      if j < |r| { assert Itself(r[i]) != Itself(r[j]); } else { assert r[i] in r; }
    }
  }

  /** The members of a set of ids, sorted. Go ranges over the map in no particular order. */
  method SortedIds(ids: set<string>) returns (r: seq<string>)
    ensures StrictlySorted(Itself, r)
    ensures forall id :: id in r <==> id in ids
  {
    var left := ids;
    r := [];
    while left != {}
      invariant left <= ids
      invariant forall id :: id in r <==> id in ids - left
      invariant DistinctKeys(Itself, r)
    {
      var id :| id in left;
      left := left - {id};
      IdsNext(r, id);
      r := r + [id];
    }
    SortBySorted(Itself, r);
    ghost var sorted := SortBy(Itself, r);
    forall id ensures id in sorted <==> id in r { assert id in sorted <==> id in multiset(sorted); }
    r := SortBy(Itself, r);
  }

  /** The entries of an aggregate that a key may see. The range over byName is in no particular
      order either. */
  method Visible(byName: map<string, Agg>, key: APIKey) returns (out: seq<Entry>)
    ensures StrictlySorted(Name, out)
    ensures forall name :: name in Names(out) <==> name in byName && May(key, name, Infer)
    ensures forall e :: e in out ==> Renders(byName, e)
  {
    var left := byName.Keys;
    out := [];
    while left != {}
      invariant left <= byName.Keys
      invariant DistinctKeys(Name, out)
      invariant forall name :: name in Names(out) <==> name in byName.Keys - left && May(key, name, Infer)
      invariant forall e :: e in out ==> Renders(byName, e)
    {
      var name :| name in left;
      left := left - {name};
      if Decide(key, name, Infer).allowed {
        var workers := SortedIds(byName[name].workers);
        var e := Entry(name, byName[name].digest, workers);
        NamesSnoc(out, e);
        out := out + [e];
      }
    }
    SortBySorted(Name, out);
    ghost var sorted := SortBy(Name, out);
    forall e ensures e in sorted <==> e in out { assert e in sorted <==> e in multiset(sorted); }
    assert Names(sorted) == Names(out);
    out := SortBy(Name, out);
  }

  ghost predicate Renders(byName: map<string, Agg>, e: Entry) {
    && e.name in byName
    && e.digest == byName[e.name].digest
    && StrictlySorted(Itself, e.workers)
    && (forall id :: id in e.workers <==> id in byName[e.name].workers)
  }

  lemma NamesSnoc(out: seq<Entry>, e: Entry)
    ensures Names(out + [e]) == Names(out) + {e.name}
    ensures e.name !in Names(out) && DistinctKeys(Name, out) ==> DistinctKeys(Name, out + [e])
    ensures forall x :: x in out + [e] <==> x in out || x == e
  {
    assert e in out + [e];
    assert forall i :: 0 <= i < |out| ==> out[i] in out && out[i].name in Names(out);
  }

  /** catalog. */
  method Catalog(fleet: seq<Worker>, key: APIKey) returns (out: seq<Entry>)
    ensures IsCatalog(fleet, key, out)
  {
    var byName := Aggregate(fleet);
    out := Visible(byName, key);
    forall e | e in out ensures IsEntry(fleet, e) {
      assert Lookup(byName, e.name) == byName[e.name];
    }
    assert forall name :: name in byName <==> Served(fleet, name);
  }

  // ----- the catalog is determined, and by what -----

  /** Go's random map order cannot be seen: a fleet and a key have exactly one catalog. */
  lemma CatalogIsUnique(fleet: seq<Worker>, key: APIKey, a: seq<Entry>, b: seq<Entry>)
    requires IsCatalog(fleet, key, a) && IsCatalog(fleet, key, b)
    ensures a == b
  {
    forall e ensures e in a <==> e in b {
      if e in a { SameEntry(fleet, fleet, key, a, b, e); }
      if e in b { SameEntry(fleet, fleet, key, b, a, e); }
    }
    StrictlySortedUnique(Name, a, b);
  }

  /** Two fleets with the same workers, whatever the order. */
  ghost predicate SameWorkers(f: seq<Worker>, g: seq<Worker>) { forall w :: w in f <==> w in g }

  /** An entry of one catalog is in the other, save that its digest may differ. */
  lemma SameEntry(f: seq<Worker>, g: seq<Worker>, key: APIKey, a: seq<Entry>, b: seq<Entry>, e: Entry)
    requires SameWorkers(f, g)
    requires IsCatalog(f, key, a) && IsCatalog(g, key, b)
    requires e in a
    ensures e.(digest := FirstDigest(g, e.name)) in b
  {
    assert e.name in Names(a);
    assert e.name in Names(b);
    var e' :| e' in b && e'.name == e.name;
    assert ServerIds(f, e.name) == ServerIds(g, e.name);
    StrictlySortedUnique(Itself, e.workers, e'.workers);
    assert e' == e.(digest := FirstDigest(g, e.name));
  }

  function Undigested(out: seq<Entry>): (r: seq<Entry>)
    ensures |r| == |out| && forall i :: 0 <= i < |out| ==> r[i] == out[i].(digest := "")
  {
    seq(|out|, i requires 0 <= i < |out| => out[i].(digest := ""))
  }

  lemma UndigestedMembers(f: seq<Worker>, g: seq<Worker>, key: APIKey, a: seq<Entry>, b: seq<Entry>, e: Entry)
    requires SameWorkers(f, g)
    requires IsCatalog(f, key, a) && IsCatalog(g, key, b)
    requires e in Undigested(a)
    ensures e in Undigested(b)
  {
    var i :| 0 <= i < |a| && Undigested(a)[i] == e;
    SameEntry(f, g, key, a, b, a[i]);
    var j :| 0 <= j < |b| && b[j] == a[i].(digest := FirstDigest(g, a[i].name));
    assert Undigested(b)[j] == e;
  }

  /** The names and the worker lists do not depend on the order of the fleet. */
  lemma OrderDoesNotMatter(f: seq<Worker>, g: seq<Worker>, key: APIKey, a: seq<Entry>, b: seq<Entry>)
    requires SameWorkers(f, g)
    requires IsCatalog(f, key, a) && IsCatalog(g, key, b)
    ensures |a| == |b| && forall i :: 0 <= i < |a| ==> a[i].name == b[i].name && a[i].workers == b[i].workers
  {
    var x, y := Undigested(a), Undigested(b);
    forall e ensures e in x <==> e in y {
      if e in x { UndigestedMembers(f, g, key, a, b, e); }
      if e in y { UndigestedMembers(g, f, key, b, a, e); }
    }
    StrictlySortedUnique(Name, x, y);
    forall i | 0 <= i < |a| ensures a[i].name == b[i].name && a[i].workers == b[i].workers {
      assert x[i] == y[i];
    }
  }

  /** Widening a key's lists only ever adds entries, and leaves the ones it had as they were. */
  lemma WideningAddsEntries(fleet: seq<Worker>, k1: APIKey, k2: APIKey, a: seq<Entry>, b: seq<Entry>)
    requires Widens(k1, k2)
    requires IsCatalog(fleet, k1, a) && IsCatalog(fleet, k2, b)
    ensures forall e :: e in a ==> e in b
  {
    forall e | e in a ensures e in b {
      assert e.name in Names(a);
      ListsAreMonotone(k1, k2, e.name, Infer);
      assert e.name in Names(b);
      var e' :| e' in b && e'.name == e.name;
      StrictlySortedUnique(Itself, e.workers, e'.workers);
    }
  }

  // ----- the digest, which may depend on the order -----

  /** All workers that report a digest for the name report the same one. */
  predicate ReportsAgree(fleet: seq<Worker>, name: string) {
    forall v, w :: v in fleet && w in fleet && DigestOf(v, name) != "" && DigestOf(w, name) != "" ==>
      DigestOf(v, name) == DigestOf(w, name)
  }

  lemma {:induction false} FirstDigestIsReported(fleet: seq<Worker>, name: string)
    ensures FirstDigest(fleet, name) == "" ==> forall w :: w in fleet ==> DigestOf(w, name) == ""
    ensures FirstDigest(fleet, name) != "" ==> exists w :: w in fleet && DigestOf(w, name) == FirstDigest(fleet, name)
  {
    if fleet != [] {
      var init, last := fleet[..|fleet| - 1], fleet[|fleet| - 1];
      FirstDigestIsReported(init, name);
      assert last in fleet;
      assert forall w :: w in fleet <==> w in init || w == last;
    }
  }

  lemma {:induction false} HeadDigestWins(w: Worker, rest: seq<Worker>, name: string)
    requires DigestOf(w, name) != ""
    ensures FirstDigest([w] + rest, name) == DigestOf(w, name)
  {
    if rest == [] {
      assert ([w] + rest)[..0] == [];
    } else {
      assert ([w] + rest)[..|rest|] == [w] + rest[..|rest| - 1];
      HeadDigestWins(w, rest[..|rest| - 1], name);
    }
  }

  /** The fleet with the worker at k moved to the front. */
  function Fronted(fleet: seq<Worker>, k: nat): seq<Worker>
    requires k < |fleet|
  {
    [fleet[k]] + (fleet[..k] + fleet[k + 1..])
  }

  lemma FrontedPermutes(fleet: seq<Worker>, k: nat)
    requires k < |fleet|
    ensures multiset(Fronted(fleet, k)) == multiset(fleet)
  {
    RemoveAt(fleet, k);
  }

  /** A model's digest is the same under every order of the fleet exactly when the workers that
      report one agree, which the code takes for granted. */
  lemma DigestIsStableExactlyWhenReportsAgree(fleet: seq<Worker>, name: string)
    ensures ReportsAgree(fleet, name) <==>
      forall g :: multiset(g) == multiset(fleet) ==> FirstDigest(g, name) == FirstDigest(fleet, name)
  {
    if ReportsAgree(fleet, name) {
      forall g | multiset(g) == multiset(fleet) ensures FirstDigest(g, name) == FirstDigest(fleet, name) {
        AgreeingReports(fleet, g, name);
      }
    } else {
      var v, w :| v in fleet && w in fleet && DigestOf(v, name) != "" && DigestOf(w, name) != ""
               && DigestOf(v, name) != DigestOf(w, name);
      var i :| 0 <= i < |fleet| && fleet[i] == v;
      var j :| 0 <= j < |fleet| && fleet[j] == w;
      FrontedPermutes(fleet, i);
      FrontedPermutes(fleet, j);
      HeadDigestWins(v, fleet[..i] + fleet[i + 1..], name);
      HeadDigestWins(w, fleet[..j] + fleet[j + 1..], name);
      assert FirstDigest(Fronted(fleet, i), name) != FirstDigest(Fronted(fleet, j), name);
    }
  }

  lemma AgreeingReports(f: seq<Worker>, g: seq<Worker>, name: string)
    requires ReportsAgree(f, name) && multiset(g) == multiset(f)
    ensures FirstDigest(g, name) == FirstDigest(f, name)
  {
    assert forall w :: w in f <==> w in multiset(f);
    assert forall w :: w in g <==> w in multiset(g);
    FirstDigestIsReported(f, name);
    FirstDigestIsReported(g, name);
  }

  /** Model j of worker i reports a digest under the name. */
  predicate Reports(fleet: seq<Worker>, name: string, i: nat, j: nat) {
    && i < |fleet| && fleet[i].status == Online
    && j < |fleet[i].models| && fleet[i].models[j].name == name && fleet[i].models[j].digest != ""
  }

  /** No model before that one does, worker by worker and model by model. */
  ghost predicate ReportsFirst(fleet: seq<Worker>, name: string, i: nat, j: nat) {
    && Reports(fleet, name, i, j)
    && (forall k: nat :: k < j ==> !Reports(fleet, name, i, k))
    && (forall h: nat, k: nat :: h < i ==> !Reports(fleet, name, h, k))
  }

  lemma {:induction false} OwnDigestIs(models: seq<Model>, name: string, j: nat)
    requires j < |models| && models[j].name == name && models[j].digest != ""
    requires forall k :: 0 <= k < j && models[k].name == name ==> models[k].digest == ""
    ensures OwnDigest(models, name) == models[j].digest
  {
    var n := |models| - 1;
    if j < n {
      OwnDigestIs(models[..n], name, j);
    } else {
      NoOwnDigest(models[..n], name);
    }
  }

  lemma {:induction false} NoOwnDigest(models: seq<Model>, name: string)
    requires forall k :: 0 <= k < |models| && models[k].name == name ==> models[k].digest == ""
    ensures OwnDigest(models, name) == ""
  {
    if models != [] { NoOwnDigest(models[..|models| - 1], name); }
  }

  lemma SilentWorker(fleet: seq<Worker>, name: string, i: nat)
    requires i < |fleet| && forall k: nat :: !Reports(fleet, name, i, k)
    ensures DigestOf(fleet[i], name) == ""
  {
    if fleet[i].status == Online {
      forall k | 0 <= k < |fleet[i].models| && fleet[i].models[k].name == name ensures fleet[i].models[k].digest == "" {
        assert !Reports(fleet, name, i, k);
      }
      NoOwnDigest(fleet[i].models, name);
    }
  }

  lemma ReportPrefix(fleet: seq<Worker>, name: string, n: nat, i: nat, j: nat)
    requires n <= |fleet|
    ensures i < n ==> (Reports(fleet[..n], name, i, j) <==> Reports(fleet, name, i, j))
  {
  }

  /** The digest a catalog shows is that of the first model of the name, in fleet order, that reports
      one, and empty if none does. */
  lemma {:induction false} ShownDigestIsFirstReported(fleet: seq<Worker>, name: string, i: nat, j: nat)
    ensures ReportsFirst(fleet, name, i, j) ==> FirstDigest(fleet, name) == fleet[i].models[j].digest
    ensures (forall h: nat, k: nat :: !Reports(fleet, name, h, k)) ==> FirstDigest(fleet, name) == ""
  {
    if fleet != [] {
      var n := |fleet| - 1;
      var init := fleet[..n];
      forall h: nat, k: nat | h < n ensures Reports(init, name, h, k) <==> Reports(fleet, name, h, k) {
        ReportPrefix(fleet, name, n, h, k);
      }
      ShownDigestIsFirstReported(init, name, i, j);
      if ReportsFirst(fleet, name, i, j) {
        if i < n {
          assert ReportsFirst(init, name, i, j);
        } else {
          forall k | 0 <= k < j && fleet[i].models[k].name == name ensures fleet[i].models[k].digest == "" {
            assert !Reports(fleet, name, i, k);
          }
          OwnDigestIs(fleet[i].models, name, j);
          assert forall h: nat, k: nat :: !Reports(init, name, h, k);
        }
      }
      if forall h: nat, k: nat :: !Reports(fleet, name, h, k) {
        SilentWorker(fleet, name, n);
        assert forall h: nat, k: nat :: !Reports(init, name, h, k);
      }
    }
  }
}
