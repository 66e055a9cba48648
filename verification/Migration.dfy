/** Version migrations: breadth-first search for a chain of registered migrations, and its application. */
module Migration {
  import opened Prelude

  /** u32 */
  type Version = v: int | 0 <= v < 0x1_0000_0000

  type Edge = (Version, Version)

  type Bytes = seq<Byte>

  datatype Context = Context(from: Version, to: Version)

  /** A registered migration; `run` is the user-supplied transformation. */
  datatype Migration = Migration(from: Version, to: Version, run: (Bytes, Context) -> Result<Bytes, string>)

  datatype Error =
    | NoPath(from: Version, to: Version)
    | MissingMigration(from: Version, to: Version)
    | Failed(reason: string)

  // ----- Specification -----

  /** `p` walks from `f` to `t` along edges of `es`. */
  ghost predicate IsPath(es: set<Edge>, f: Version, t: Version, p: seq<Version>) {
    && |p| >= 1
    && p[0] == f
    && p[|p| - 1] == t
    && forall i :: 0 <= i < |p| - 1 ==> (p[i], p[i + 1]) in es
  }

  ghost predicate Reachable(es: set<Edge>, f: Version, t: Version) {
    exists p :: IsPath(es, f, t, p)
  }

  ghost predicate IsShortest(es: set<Edge>, f: Version, t: Version, p: seq<Version>) {
    && IsPath(es, f, t, p)
    && forall q :: IsPath(es, f, t, q) ==> |p| <= |q|
  }

  /** What running the registered migrations along `p` does to `data`, stopping at the first failure. */
  function ApplyPath(ms: map<Edge, Migration>, p: seq<Version>, data: Bytes): Result<Bytes, Error> {
    if |p| < 2 then
      Ok(data)
    else if (p[0], p[1]) !in ms then
      Err(MissingMigration(p[0], p[1]))
    else
      match ms[(p[0], p[1])].run(data, Context(p[0], p[1]))
      case Err(reason) => Err(Failed(reason))
      case Ok(next) => ApplyPath(ms, p[1..], next)
  }

  /**
   * `ds` are the data from version to version of `p`: each is what the migration registered for the step returned on
   * the one before. Either they cover the path and the last is the result, or the next migration failed and the result
   * is its reason.
   */
  ghost predicate Traces(ms: map<Edge, Migration>, p: seq<Version>, data: Bytes, ds: seq<Bytes>,
                         r: Result<Bytes, Error>)
  {
    && 1 <= |ds| <= |p| && ds[0] == data
    && (forall i :: 0 <= i < |ds| - 1 ==> Steps(ms, p[i], p[i + 1], ds[i], Ok(ds[i + 1])))
    && (if |ds| == |p| then r == Ok(ds[|ds| - 1])
        else r.Err? && r.error.Failed? && Steps(ms, p[|ds| - 1], p[|ds|], ds[|ds| - 1], Err(r.error.reason)))
  }

  /** The migration registered from `u` to `w` returns `out` on `data`. */
  ghost predicate Steps(ms: map<Edge, Migration>, u: Version, w: Version, data: Bytes, out: Result<Bytes, string>) {
    (u, w) in ms && ms[(u, w)].run(data, Context(u, w)) == out
  }

  // ----- Lemmas -----

  /** A direct migration is always preferred: it is the only shortest path. */
  lemma DirectIsShortest(es: set<Edge>, f: Version, t: Version, p: seq<Version>)
    requires f != t && (f, t) in es && IsShortest(es, f, t, p)
    ensures p == [f, t]
  {
    assert IsPath(es, f, t, [f, t]);
  }

  /** Applying a path is applying its first part and then the rest: migrating in two legs loses nothing. */
  lemma {:induction false} ApplyPathSplit(ms: map<Edge, Migration>, p: seq<Version>, q: seq<Version>, data: Bytes)
    requires |p| >= 1 && |q| >= 1 && p[|p| - 1] == q[0]
    ensures ApplyPath(ms, p + q[1..], data)
         == match ApplyPath(ms, p, data) case Ok(mid) => ApplyPath(ms, q, mid) case Err(e) => Err(e)
  {
    if |p| == 1 {
      assert p + q[1..] == q;
    } else {
      assert (p + q[1..])[1..] == p[1..] + q[1..];
      if (p[0], p[1]) in ms {
        var step := ms[(p[0], p[1])].run(data, Context(p[0], p[1]));
        if step.Ok? {
          ApplyPathSplit(ms, p[1..], q, step.value);
        }
      }
    }
  }

  /** Along a path of registered edges the "Missing migration" error cannot come up. */
  lemma {:induction false} RegisteredPathNeverMissing(ms: map<Edge, Migration>, f: Version, t: Version,
          p: seq<Version>, data: Bytes)
    requires IsPath(ms.Keys, f, t, p)
    ensures ApplyPath(ms, p, data).Err? ==> ApplyPath(ms, p, data).error.Failed?
    decreases |p|
  {
    if |p| >= 2 {
      assert (p[0], p[1]) in ms.Keys;
      var step := ms[(p[0], p[1])].run(data, Context(p[0], p[1]));
      if step.Ok? {
        RegisteredPathNeverMissing(ms, p[1], t, p[1..], step.value);
      }
    }
  }

  /** What the search knows: `done` is expanded, every other visited version is at distance at least `d`. */
  ghost predicate Frontier(es: set<Edge>, f: Version, dist: map<Version, nat>, done: set<Version>, d: nat) {
    && f in dist
    && (forall u, w :: u in done && (u, w) in es ==> w in dist && u in dist && dist[w] <= dist[u] + 1)
    && (forall u :: u in dist && u !in done ==> dist[u] >= d)
    && dist[f] == 0
  }

  /** Every version at most `d` edges away has already been visited. */
  lemma {:induction false} NearIsVisited(es: set<Edge>, f: Version, x: Version, p: seq<Version>,
                                         dist: map<Version, nat>, done: set<Version>, d: nat)
    requires Frontier(es, f, dist, done, d)
    requires IsPath(es, f, x, p) && |p| - 1 <= d
    ensures x in dist && dist[x] <= |p| - 1
    decreases |p|
  {
    if |p| > 1 {
      var y := p[|p| - 2];
      var q := p[..|p| - 1];
      assert (p[|p| - 2], p[|p| - 2 + 1]) in es;
      NearIsVisited(es, f, y, q, dist, done, d);
      assert y in done;
    }
  }

  /** When nothing is left to expand, whatever is reachable has been visited. */
  lemma ExhaustedIsComplete(es: set<Edge>, f: Version, t: Version, dist: map<Version, nat>, done: set<Version>)
    requires forall d: nat :: Frontier(es, f, dist, done, d)
    requires t !in dist
    ensures !Reachable(es, f, t)
  {
    forall p | IsPath(es, f, t, p) ensures false {
      NearIsVisited(es, f, t, p, dist, done, |p| - 1);
    }
  }

  /** The parent links form a tree rooted at `f` whose levels are the distances. */
  ghost predicate ParentTree(es: set<Edge>, f: Version, parent: map<Version, Version>, dist: map<Version, nat>) {
    && f in dist && dist[f] == 0 && f !in parent
    && (forall v :: v in dist && v != f ==> v in parent)
    && (forall v :: v in parent ==> v in dist && parent[v] in dist && (parent[v], v) in es
                                    && dist[v] == dist[parent[v]] + 1)
  }

  /** Walk the parent links back from `t`; the walk ends and yields a repetition-free path. */
  method ReconstructPath(ghost es: set<Edge>, f: Version, t: Version, parent: map<Version, Version>,
                         ghost dist: map<Version, nat>) returns (path: seq<Version>)
    requires ParentTree(es, f, parent, dist)
    requires t in dist && t != f
    ensures IsPath(es, f, t, path)
    ensures |path| == dist[t] + 1
    ensures Distinct(path)
  {
    var rev := [t];
    var v := t;
    while v in parent
      invariant |rev| >= 1 && rev[0] == t && rev[|rev| - 1] == v
      invariant v != f && v in dist
      invariant forall i :: 0 <= i < |rev| ==> rev[i] in dist && dist[rev[i]] == dist[t] - i
      invariant forall i :: 0 <= i < |rev| - 1 ==> (rev[i + 1], rev[i]) in es
      decreases dist[v]
    {
      var p := parent[v];
      if p == f {
        rev := rev + [p];
        break;
      }
      rev := rev + [p];
      v := p;
    }
    path := Reverse(rev);
    forall i | 0 <= i < |path| - 1 ensures (path[i], path[i + 1]) in es {
      var k := |rev| - 2 - i;
      assert path[i] == rev[k + 1] && path[i + 1] == rev[k];
    }
  }

  ghost function Versions(es: set<Edge>, f: Version): set<Version> {
    {f} + set e | e in es :: e.1
  }

  /** The search state between two discoveries: `queue` holds the visited versions still to be expanded. */
  ghost predicate Searching(es: set<Edge>, f: Version, t: Version, visited: set<Version>, queue: seq<Version>,
                            parent: map<Version, Version>, dist: map<Version, nat>, done: set<Version>) {
    && visited == dist.Keys && t !in visited && visited <= Versions(es, f)
    && ParentTree(es, f, parent, dist)
    && Distinct(queue)
    && (forall v :: v in visited <==> v in done || v in queue)
    && (forall v :: v in queue ==> v !in done)
    && (forall i, j :: 0 <= i < j < |queue| ==> dist[queue[i]] <= dist[queue[j]])
  }

  ghost predicate WithinOneOf(dist: map<Version, nat>, d: nat) {
    forall v :: v in dist ==> dist[v] <= d + 1
  }

  ghost predicate Expanded(es: set<Edge>, done: set<Version>, dist: map<Version, nat>) {
    forall u, w :: u in done && (u, w) in es ==> u in dist && w in dist && dist[w] <= dist[u] + 1
  }

  /** Recording a newly met successor of the version being expanded keeps the search state well formed. */
  lemma Discover(es: set<Edge>, f: Version, t: Version, visited: set<Version>, queue: seq<Version>,
                 parent: map<Version, Version>, dist: map<Version, nat>, done: set<Version>, w: Version)
    requires Searching(es, f, t, visited, queue, parent, dist, done)
    requires queue != [] && (queue[0], w) in es && w !in visited
    requires WithinOneOf(dist, dist[queue[0]]) && Expanded(es, done, dist)
    ensures ParentTree(es, f, parent[w := queue[0]], dist[w := dist[queue[0]] + 1])
    ensures w != t ==>
              Searching(es, f, t, visited + {w}, queue + [w], parent[w := queue[0]],
                        dist[w := dist[queue[0]] + 1], done)
    ensures WithinOneOf(dist[w := dist[queue[0]] + 1], dist[queue[0]])
    ensures Expanded(es, done, dist[w := dist[queue[0]] + 1])
    ensures Frontier(es, f, dist, done, dist[queue[0]])
  {
    var dist' := dist[w := dist[queue[0]] + 1];
    forall i | 0 <= i < |queue| ensures queue[i] in dist && dist'[queue[i]] == dist[queue[i]] {
      assert queue[i] in queue;
    }
    assert (queue[0], w).1 == w;
    forall u | u in dist && u !in done ensures dist[u] >= dist[queue[0]] {
      var i :| 0 <= i < |queue| && queue[i] == u;
      assert dist[queue[0]] <= dist[queue[i]];
    }
  }

  /** Every edge leaving `u` that is no longer in `remaining` leads to a visited version. */
  ghost predicate RowScanned(es: set<Edge>, remaining: set<Edge>, u: Version, dist: map<Version, nat>) {
    forall w :: (u, w) in es && (u, w) !in remaining ==> w in dist
  }

  lemma HeadOfQueue(es: set<Edge>, f: Version, t: Version, visited: set<Version>, queue: seq<Version>,
                    parent: map<Version, Version>, dist: map<Version, nat>, done: set<Version>)
    requires Searching(es, f, t, visited, queue, parent, dist, done) && queue != []
    ensures visited == dist.Keys && t !in visited
    ensures queue[0] in dist && queue[0] in Versions(es, f) - done
  {
    assert queue[0] in queue;
  }

  /** Once its whole table row is scanned, the head of the queue counts as expanded. */
  lemma FinishHead(es: set<Edge>, f: Version, t: Version, visited: set<Version>, queue: seq<Version>,
                   parent: map<Version, Version>, dist: map<Version, nat>, done: set<Version>)
    requires queue != []
    requires Searching(es, f, t, visited, queue, parent, dist, done)
    requires WithinOneOf(dist, dist[queue[0]]) && Expanded(es, done, dist)
    requires RowScanned(es, {}, queue[0], dist)
    ensures Searching(es, f, t, visited, queue[1..], parent, dist, done + {queue[0]})
    ensures queue[1..] != [] ==> WithinOneOf(dist, dist[queue[1]])
    ensures Expanded(es, done + {queue[0]}, dist)
  {
    assert forall i :: 0 <= i < |queue| - 1 ==> queue[1..][i] == queue[i + 1];
    forall v ensures v in queue <==> v == queue[0] || v in queue[1..] {
      assert queue == [queue[0]] + queue[1..];
    }
    if queue[1..] != [] {
      assert dist[queue[0]] <= dist[queue[1]];
    }
  }

  /** The first time the target is met, no path can be shorter than the one just found. */
  lemma FirstArrivalIsShortest(es: set<Edge>, f: Version, t: Version, dist: map<Version, nat>, done: set<Version>,
                               d: nat, path: seq<Version>)
    requires Frontier(es, f, dist, done, d) && t !in dist
    requires IsPath(es, f, t, path) && |path| == d + 2
    ensures IsShortest(es, f, t, path)
  {
    forall q | IsPath(es, f, t, q) ensures |path| <= |q| {
      if |q| - 1 <= d {
        NearIsVisited(es, f, t, q, dist, done, d);
      }
    }
  }

  class Migrator {
    var migrations: map<Edge, Migration>

    ghost predicate Valid()
      reads this
    {
      forall k :: k in migrations ==> migrations[k].from == k.0 && migrations[k].to == k.1
    }

    constructor ()
      ensures Valid() && migrations == map[]
    {
      migrations := map[];
    }

    /** Registering replaces any migration between the same two versions. */
    method Register(m: Migration)
      requires Valid()
      modifies this
      ensures Valid()
      ensures migrations == old(migrations)[(m.from, m.to) := m]
    {
      migrations := migrations[(m.from, m.to) := m];
    }

    /**
     * One round of the search: scan the whole table, in an arbitrary order, for edges leaving the head of the queue.
     */
    method Expand(from: Version, to: Version, visited0: set<Version>, queue0: seq<Version>,
                  parent0: map<Version, Version>, ghost dist0: map<Version, nat>, ghost done: set<Version>)
      returns (visited: set<Version>, queue: seq<Version>, parent: map<Version, Version>,
               found: Option<seq<Version>>, ghost dist: map<Version, nat>)
      requires queue0 != []
      requires Searching(migrations.Keys, from, to, visited0, queue0, parent0, dist0, done)
      requires queue0[0] in dist0 && WithinOneOf(dist0, dist0[queue0[0]])
      requires Expanded(migrations.Keys, done, dist0)
      ensures found.Some? ==> IsShortest(migrations.Keys, from, to, found.value) && Distinct(found.value)
      ensures found.None? ==>
                && Searching(migrations.Keys, from, to, visited, queue, parent, dist, done + {queue0[0]})
                && (queue != [] ==> WithinOneOf(dist, dist[queue[0]]))
                && Expanded(migrations.Keys, done + {queue0[0]}, dist)
      ensures queue0[0] in Versions(migrations.Keys, from) - done
    {
      hide Searching, ParentTree, Expanded, WithinOneOf, Frontier, IsShortest, IsPath, Distinct, Versions;
      ghost var es := migrations.Keys;
      HeadOfQueue(es, from, to, visited0, queue0, parent0, dist0, done);
      var current := queue0[0];
      ghost var d := dist0[current];
      visited, queue, parent, found, dist := visited0, queue0[1..], parent0, None, dist0;
      ghost var full := queue0;
      var remaining := migrations.Keys;
      while remaining != {}
        invariant remaining <= es
        invariant found.None?
        invariant full != [] && full[0] == current && queue == full[1..]
        invariant Searching(es, from, to, visited, full, parent, dist, done) && visited == dist.Keys && to !in visited
        invariant current in dist && dist[current] == d && WithinOneOf(dist, d)
        invariant Expanded(es, done, dist)
        invariant RowScanned(es, remaining, current, dist)
        decreases remaining
      {
        var edge :| edge in remaining;
        remaining := remaining - {edge};
        if edge.0 == current && edge.1 !in visited {
          Discover(es, from, to, visited, full, parent, dist, done, edge.1);
          ghost var before := dist;
          visited := visited + {edge.1};
          parent := parent[edge.1 := current];
          queue := queue + [edge.1];
          full := full + [edge.1];
          dist := dist[edge.1 := d + 1];
          if edge.1 == to {
            var path := ReconstructPath(es, from, to, parent, dist);
            FirstArrivalIsShortest(es, from, to, before, done, d, path);
            return visited, queue, parent, Some(path), dist;
          }
        }
      }
      FinishHead(es, from, to, visited, full, parent, dist, done);
    }

    /** Breadth-first search over the registered edges. */
    method FindMigrationPath(from: Version, to: Version) returns (r: Option<seq<Version>>)
      ensures r.None? <==> !Reachable(migrations.Keys, from, to)
      ensures r.Some? ==> IsShortest(migrations.Keys, from, to, r.value) && Distinct(r.value)
    {
      ghost var es := migrations.Keys;
      if from == to {
        assert IsPath(es, from, to, [from]);
        return Some([from]);
      }
      var visited := {from};
      var queue := [from];
      var parent: map<Version, Version> := map[];
      ghost var dist: map<Version, nat> := map[from := 0];
      ghost var done: set<Version> := {};

      while queue != []
        invariant Searching(es, from, to, visited, queue, parent, dist, done)
        invariant queue != [] ==> WithinOneOf(dist, dist[queue[0]])
        invariant Expanded(es, done, dist)
        decreases Versions(es, from) - done
      {
        var current := queue[0];
        var found: Option<seq<Version>>;
        visited, queue, parent, found, dist := Expand(from, to, visited, queue, parent, dist, done);
        if found.Some? {
          return found;
        }
        done := done + {current};
      }
      ExhaustedIsComplete(es, from, to, dist, done);
      return None;
    }

    method CanMigrate(from: Version, to: Version) returns (b: bool)
      ensures b <==> Reachable(migrations.Keys, from, to)
    {
      if from == to {
        assert IsPath(migrations.Keys, from, to, [from]);
        return true;
      }
      if (from, to) in migrations {
        assert IsPath(migrations.Keys, from, to, [from, to]);
        return true;
      }
      var path := FindMigrationPath(from, to);
      return path.Some?;
    }

    /** Migration is application of the registered migrations along some shortest registered path. */
    method Migrate(data: Bytes, from: Version, to: Version) returns (r: Result<Bytes, Error>)
      ensures r == Err(NoPath(from, to)) <==> !Reachable(migrations.Keys, from, to)
      ensures r.Err? ==> r.error == NoPath(from, to) || r.error.Failed?
      ensures Reachable(migrations.Keys, from, to) ==>
                exists p, ds :: IsShortest(migrations.Keys, from, to, p) && Traces(migrations, p, data, ds, r)
                                && r == ApplyPath(migrations, p, data)
    {
      if from == to {
        assert IsShortest(migrations.Keys, from, to, [from]);
        assert Traces(migrations, [from], data, [data], Ok(data));
        return Ok(data);
      }
      var found := FindMigrationPath(from, to);
      if found.None? {
        return Err(NoPath(from, to));
      }
      var path := found.value;
      ghost var ds := [data];
      RegisteredPathNeverMissing(migrations, from, to, path, data);
      if |path| < 2 {
        return Ok(data);
      }
      var currentData := data;
      var currentVersion := from;
      var i := 1;
      while i < |path|
        invariant 1 <= i <= |path|
        invariant currentVersion == path[i - 1]
        invariant |ds| == i && ds[0] == data && ds[i - 1] == currentData
        invariant forall j :: 0 <= j < i - 1 ==> Steps(migrations, path[j], path[j + 1], ds[j], Ok(ds[j + 1]))
        invariant ApplyPath(migrations, path[i - 1..], currentData) == ApplyPath(migrations, path, data)
      {
        var key := (currentVersion, path[i]);
        assert path[i - 1..][1..] == path[i..];
        if key !in migrations {
          return Err(MissingMigration(key.0, key.1));
        }
        match migrations[key].run(currentData, Context(currentVersion, path[i])) {
          case Err(reason) =>
            assert Traces(migrations, path, data, ds, Err(Failed(reason)));
            return Err(Failed(reason));
          case Ok(next) =>
            currentData := next;
            ds := ds + [next];
        }
        currentVersion := path[i];
        i := i + 1;
      }
      assert Traces(migrations, path, data, ds, Ok(currentData));
      return Ok(currentData);
    }
  }
}
