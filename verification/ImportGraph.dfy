/**
 Which packages may reach a database driver: a depth-first search over the import graph with one
 visited set, cut at the packages that may hold a driver, is reachability along uncut paths.
 */
module ImportGraph {
  import opened Prelude

  type Graph = map<string, seq<string>>

  const MODULE := "github.com/sixfathoms/marque"
  const STORE := "internal/harbourmaster/store"
  const PILOT_POSTGRES := "internal/pilot/postgres"
  const PILOT_MYSQL := "internal/pilot/mysql"

  /** Each driver's root and the one package that may import it. */
  const DRIVER_HOMES: map<string, string> := map[
    "github.com/jackc/pgx" := STORE,
    "github.com/jackc/pgconn" := STORE,
    "github.com/jackc/pgproto3" := STORE,
    "github.com/lib/pq" := STORE,
    "github.com/go-sql-driver/mysql" := PILOT_MYSQL,
    "github.com/ziutek/mymysql" := PILOT_MYSQL]

  predicate Under(imp: string, root: string) {
    imp == root || HasPrefix(imp, root + "/")
  }

  /** The home of the driver an import belongs to. The table is searched in no particular order. */
  function DriverHome(imp: string): (home: Option<string>)
    ensures home.Some? <==> exists root | root in DRIVER_HOMES :: Under(imp, root)
    ensures forall root | root in DRIVER_HOMES && Under(imp, root) :: home == Some(DRIVER_HOMES[root])
  {
    RootsAgree(imp);
    if exists root | root in DRIVER_HOMES :: Under(imp, root)
    then Some(if Under(imp, "github.com/go-sql-driver/mysql") || Under(imp, "github.com/ziutek/mymysql") then PILOT_MYSQL else STORE)
    else None
  }

  /** The twelfth character of an import tells the PostgreSQL roots from the MySQL ones. */
  lemma RootsAgree(imp: string)
    ensures forall root | root in DRIVER_HOMES && Under(imp, root) ::
              DRIVER_HOMES[root] == if Under(imp, "github.com/go-sql-driver/mysql") || Under(imp, "github.com/ziutek/mymysql")
                                    then PILOT_MYSQL else STORE
  {
    forall root | root in DRIVER_HOMES && Under(imp, root)
      ensures DRIVER_HOMES[root] == if Under(imp, "github.com/go-sql-driver/mysql") || Under(imp, "github.com/ziutek/mymysql")
                                    then PILOT_MYSQL else STORE
    {
      RootsOfMySQL(root);
      UnderKeeps(imp, root);
      if Under(imp, "github.com/go-sql-driver/mysql") { UnderKeeps(imp, "github.com/go-sql-driver/mysql"); }
      if Under(imp, "github.com/ziutek/mymysql") { UnderKeeps(imp, "github.com/ziutek/mymysql"); }
    }
  }

  lemma RootsOfMySQL(root: string)
    requires root in DRIVER_HOMES
    ensures |root| > 11 && DRIVER_HOMES[root] == (if root[11] in {'g', 'z'} then PILOT_MYSQL else STORE)
    ensures root[11] in {'g', 'z'} <==> root == "github.com/go-sql-driver/mysql" || root == "github.com/ziutek/mymysql"
  {
  }

  lemma UnderKeeps(imp: string, root: string)
    requires Under(imp, root) && |root| > 11
    ensures |imp| > 11 && imp[11] == root[11]
  {
  }

  predicate IsFirstParty(path: string) {
    path == MODULE || HasPrefix(path, MODULE + "/")
  }

  /** A first-party package that may hold some driver; the search stops there. */
  predicate IsPermittedHome(path: string) {
    HasPrefix(path, MODULE + "/") &&
    (path[|MODULE| + 1..] in DRIVER_HOMES.Values || path[|MODULE| + 1..] == PILOT_POSTGRES)
  }

  predicate PermittedHere(imp: string, dir: string) {
    match DriverHome(imp)
    case None => true
    case Some(home) => dir == home || (home == STORE && dir == PILOT_POSTGRES)
  }

  function ImportsOf(g: Graph, path: string): seq<string> {
    if path in g then g[path] else []
  }

  predicate IsDriver(imp: string) { DriverHome(imp).Some? }

  /** Permission is judged against the package the search started from. */
  predicate MayHold(origin: string, driver: string) {
    IsFirstParty(origin) && PermittedHere(driver, TrimPrefix(origin, MODULE + "/"))
  }

  /** A step the search follows: neither a driver nor a package where the graph is cut. */
  predicate Follows(imp: string) {
    !IsDriver(imp) && !IsPermittedHome(imp)
  }

  predicate Forbidden(origin: string, imp: string) {
    IsDriver(imp) && !MayHold(origin, imp)
  }

  // ---------------------------------------------------------------- the specification: paths

  /** A real chain of imports from `start`, uncut on the way, to a driver the origin may not hold. */
  ghost predicate BadPath(g: Graph, origin: string, start: string, p: seq<string>)
    decreases |p|
  {
    && p != [] && p[0] in ImportsOf(g, start)
    && (if |p| == 1 then Forbidden(origin, p[0]) else Follows(p[0]) && BadPath(g, origin, p[0], p[1..]))
  }

  // ---------------------------------------------------------------- the search

  ghost predicate Handled(origin: string, imp: string, seen: set<string>) {
    if IsDriver(imp) then MayHold(origin, imp) else IsPermittedHome(imp) || imp in seen
  }

  ghost predicate Explored(g: Graph, origin: string, node: string, seen: set<string>) {
    forall imp | imp in ImportsOf(g, node) :: Handled(origin, imp, seen)
  }

  ghost predicate Closed(g: Graph, universe: set<string>) {
    forall path, imp | path in universe && imp in ImportsOf(g, path) :: imp in universe
  }

  class Traversal {
    const imports: Graph
    var seen: set<string>

    constructor (imports: Graph)
      ensures this.imports == imports && seen == {}
    {
      this.imports := imports;
      seen := {};
    }

    /**
     Returns the chain by which `path` reaches a forbidden driver, or nothing. Marks the shared visited
     set in place. The universe is any set of packages closed under imports; what is left of it unvisited shrinks.
     */
    method ReachesDriverFrom(origin: string, path: string, ghost universe: set<string>) returns (via: seq<string>)
      requires path in universe && Closed(imports, universe)
      modifies this
      ensures old(seen) <= seen
      ensures via != [] ==> BadPath(imports, origin, path, via)
      ensures via == [] ==> path in seen
      ensures via == [] ==> ExploredSince(imports, origin, old(seen), seen)
      decreases |universe - seen|, 1
    {
      hide BadPath, ExploredSince, Explored, Handled, Closed, IsDriver;
      if path in seen {
        NothingSince(imports, origin, seen);
        return [];
      }
      ghost var before := seen;
      seen := seen + {path};
      var imps := if path in imports then imports[path] else [];
      OneFewer(universe, before, path);
      StartsExploring(imports, origin, before, path);
      for i := 0 to |imps|
        invariant before + {path} <= seen
        invariant forall k | 0 <= k < i :: Handled(origin, imps[k], seen)
        invariant ExploredSince(imports, origin, before + {path}, seen)
      {
        ghost var mid := seen;
        FewerUnseen(universe, before + {path}, seen);
        ImportsStay(imports, universe, path, imps[i]);
        var rest := TryImport(origin, path, imps[i], universe);
        if rest != [] {
          return rest;
        }
        ExploredOn(imports, origin, before + {path}, mid, seen);
        ExploredGrows(imports, origin, mid, seen);
      }
      HandledMeansExplored(imports, origin, path, seen);
      ExploredToo(imports, origin, before, path, seen);
      return [];
    }

    /** One import of `path`: permitted, forbidden, a cut, or to be searched. */
    method TryImport(origin: string, path: string, imp: string, ghost universe: set<string>) returns (via: seq<string>)
      requires imp in ImportsOf(imports, path) && imp in universe && Closed(imports, universe)
      modifies this
      ensures old(seen) <= seen
      ensures via != [] ==> BadPath(imports, origin, path, via)
      ensures via == [] ==> Handled(origin, imp, seen) && ExploredSince(imports, origin, old(seen), seen)
      decreases |universe - seen| + 1, 0
    {
      hide IsPermittedHome, MayHold, IsDriver, Explored;
      if IsDriver(imp) {
        if MayHold(origin, imp) {
          return [];
        }
        return [imp];
      }
      if IsPermittedHome(imp) {
        return [];
      }
      var rest := ReachesDriverFrom(origin, imp, universe);
      if rest != [] {
        assert ([imp] + rest)[1..] == rest;
        return [imp] + rest;
      }
      return [];
    }
  }

  /** Everything newly marked has been explored. */
  ghost predicate ExploredSince(g: Graph, origin: string, before: set<string>, after: set<string>) {
    forall n | n in after && n !in before :: Explored(g, origin, n, after)
  }

  lemma NothingSince(g: Graph, origin: string, seen: set<string>)
    ensures ExploredSince(g, origin, seen, seen)
  {
  }

  lemma StartsExploring(g: Graph, origin: string, before: set<string>, path: string)
    ensures ExploredSince(g, origin, before + {path}, before + {path})
  {
  }

  lemma ExploredOn(g: Graph, origin: string, a: set<string>, b: set<string>, c: set<string>)
    requires a <= b <= c && ExploredSince(g, origin, a, b) && ExploredSince(g, origin, b, c)
    ensures ExploredSince(g, origin, a, c)
  {
    hide Explored;
    ExploredGrows(g, origin, b, c);
  }

  lemma ExploredToo(g: Graph, origin: string, before: set<string>, path: string, after: set<string>)
    requires ExploredSince(g, origin, before + {path}, after) && Explored(g, origin, path, after)
    ensures ExploredSince(g, origin, before, after)
  {
    hide Explored;
  }

  lemma OneFewer(universe: set<string>, seen: set<string>, path: string)
    requires path in universe && path !in seen
    ensures |universe - (seen + {path})| < |universe - seen|
  {
    assert path in universe - seen && path !in universe - (seen + {path});
    SmallerSet(universe - (seen + {path}), universe - seen);
  }

  lemma FewerUnseen(universe: set<string>, a: set<string>, b: set<string>)
    requires a <= b
    ensures |universe - b| <= |universe - a|
  {
    SmallerSet(universe - b, universe - a);
  }

  lemma ImportsStay(g: Graph, universe: set<string>, path: string, imp: string)
    requires Closed(g, universe) && path in universe && imp in ImportsOf(g, path)
    ensures imp in universe
  {
  }

  lemma HandledMeansExplored(g: Graph, origin: string, node: string, seen: set<string>)
    requires forall k | 0 <= k < |ImportsOf(g, node)| :: Handled(origin, ImportsOf(g, node)[k], seen)
    ensures Explored(g, origin, node, seen)
  {
    hide Handled;
  }

  lemma SmallerSet(a: set<string>, b: set<string>)
    requires a <= b
    ensures |a| <= |b| && (a != b ==> |a| < |b|)
  {
    assert b == a + (b - a);
    if a != b { assert exists x :: x in b - a; }
  }

  lemma ExploredGrows(g: Graph, origin: string, a: set<string>, b: set<string>)
    requires a <= b
    ensures forall imp | Handled(origin, imp, a) :: Handled(origin, imp, b)
    ensures forall n | Explored(g, origin, n, a) :: Explored(g, origin, n, b)
  {
    hide IsDriver, MayHold, IsPermittedHome;
  }

  ghost function Universe(g: Graph, path: string): set<string> {
    {path} + g.Keys + (set p, i | p in g && 0 <= i < |g[p]| :: g[p][i])
  }

  /** No uncut path leaves a set whose every node has been explored. */
  lemma {:induction false} ExploredMeansSafe(g: Graph, origin: string, seen: set<string>, start: string, p: seq<string>)
    requires start in seen && forall n | n in seen :: Explored(g, origin, n, seen)
    ensures !BadPath(g, origin, start, p)
    decreases |p|
  {
    hide IsDriver, MayHold, IsPermittedHome;
    if p != [] && p[0] in ImportsOf(g, start) {
      assert Explored(g, origin, start, seen) && Handled(origin, p[0], seen);
      if |p| > 1 && Follows(p[0]) {
        ExploredMeansSafe(g, origin, seen, p[0], p[1..]);
      }
    }
  }

  /**
   On every finite graph, cycles included: something is reported exactly when some path from the
   package, avoiding drivers and permitted homes on the way, ends in a driver the package may not hold.
   What is reported is such a path.
   */
  method ReachesDriver(imports: Graph, path: string) returns (via: seq<string>)
    ensures via != [] <==> exists p :: BadPath(imports, path, path, p)
    ensures via != [] ==> BadPath(imports, path, path, via)
  {
    hide BadPath, Explored;
    var traversal := new Traversal(imports);
    via := traversal.ReachesDriverFrom(path, path, Universe(imports, path));
    if via == [] {
      forall p ensures !BadPath(imports, path, path, p) {
        ExploredMeansSafe(imports, path, traversal.seen, path, p);
      }
    }
  }

  // ---------------------------------------------------------------- what the rule means

  ghost predicate Chain(g: Graph, start: string, p: seq<string>)
    decreases |p|
  {
    p == [] || (start in g && p[0] in g[start] && Chain(g, p[0], p[1..]))
  }

  lemma OneStepIsBad(g: Graph, origin: string, start: string, p: seq<string>)
    requires |p| == 1 && Chain(g, start, p) && Forbidden(origin, p[0])
    ensures BadPath(g, origin, start, p)
  {
  }

  lemma OneStepMore(g: Graph, origin: string, start: string, imp: string, q: seq<string>)
    requires start in g && imp in g[start] && Follows(imp) && BadPath(g, origin, imp, q)
    ensures BadPath(g, origin, start, [imp] + q)
  {
    hide IsDriver, IsPermittedHome, MayHold;
    assert ([imp] + q)[1..] == q;
  }

  /**
   If the search is silent about every package, then any chain of imports from a package to a driver
   it may not hold passes through a permitted home: the homes are the only way to a driver.
   */
  lemma {:induction false} OnlyThroughHomes(g: Graph, origin: string, start: string, p: seq<string>)
    requires p != [] && Chain(g, start, p) && Forbidden(origin, p[|p| - 1])
    requires forall k | 0 <= k < |p| - 1 :: !IsDriver(p[k])
    requires forall q :: !BadPath(g, origin, start, q)
    ensures exists k :: 0 <= k < |p| - 1 && IsPermittedHome(p[k])
    decreases |p|
  {
    hide IsDriver, IsPermittedHome, MayHold;
    if |p| == 1 {
      OneStepIsBad(g, origin, start, p);
    } else if !IsPermittedHome(p[0]) {
      forall q ensures !BadPath(g, origin, p[0], q) {
        if BadPath(g, origin, p[0], q) { OneStepMore(g, origin, start, p[0], q); }
      }
      OnlyThroughHomes(g, origin, p[0], p[1..]);
      var k :| 0 <= k < |p[1..]| - 1 && IsPermittedHome(p[1..][k]);
      assert IsPermittedHome(p[k + 1]);
    }
  }

  // ---------------------------------------------------------------- who may hold what, by name

  const STORE_PACKAGE := "github.com/sixfathoms/marque/internal/harbourmaster/store"
  const PILOT_POSTGRES_PACKAGE := "github.com/sixfathoms/marque/internal/pilot/postgres"
  const PILOT_MYSQL_PACKAGE := "github.com/sixfathoms/marque/internal/pilot/mysql"

  /** A package of the module `root`, or the module itself. */
  predicate Within(imp: string, root: string) {
    imp == root || root + "/" <= imp
  }

  predicate PostgresDriver(imp: string) {
    || Within(imp, "github.com/jackc/pgx") || Within(imp, "github.com/jackc/pgconn")
    || Within(imp, "github.com/jackc/pgproto3") || Within(imp, "github.com/lib/pq")
  }

  predicate MySQLDriver(imp: string) {
    Within(imp, "github.com/go-sql-driver/mysql") || Within(imp, "github.com/ziutek/mymysql")
  }

  /** The store and the two Pilots' adapters. */
  predicate Home(path: string) {
    path == STORE_PACKAGE || path == PILOT_POSTGRES_PACKAGE || path == PILOT_MYSQL_PACKAGE
  }

  lemma RootsByName()
    ensures forall r | r in {"github.com/jackc/pgx", "github.com/jackc/pgconn", "github.com/jackc/pgproto3", "github.com/lib/pq"} ::
              r in DRIVER_HOMES && DRIVER_HOMES[r] == STORE
    ensures forall r | r in {"github.com/go-sql-driver/mysql", "github.com/ziutek/mymysql"} ::
              r in DRIVER_HOMES && DRIVER_HOMES[r] == PILOT_MYSQL
  {
  }

  lemma WithinIsUnder(imp: string, root: string)
    requires Within(imp, root) && root in DRIVER_HOMES
    ensures DriverHome(imp) == Some(DRIVER_HOMES[root])
  {
    hide DriverHome, DRIVER_HOMES;
  }

  lemma HomeOfPostgres(imp: string)
    ensures PostgresDriver(imp) ==> DriverHome(imp) == Some(STORE)
  {
    hide DriverHome, DRIVER_HOMES, Within, STORE;
    RootsByName();
    if PostgresDriver(imp) {
      var root := if Within(imp, "github.com/jackc/pgx") then "github.com/jackc/pgx"
                  else if Within(imp, "github.com/jackc/pgconn") then "github.com/jackc/pgconn"
                  else if Within(imp, "github.com/jackc/pgproto3") then "github.com/jackc/pgproto3" else "github.com/lib/pq";
      WithinIsUnder(imp, root);
    }
  }

  lemma HomeOfMySQL(imp: string)
    ensures MySQLDriver(imp) ==> DriverHome(imp) == Some(PILOT_MYSQL)
  {
    hide DriverHome, DRIVER_HOMES, Within, PILOT_MYSQL;
    RootsByName();
    if MySQLDriver(imp) {
      var root := if Within(imp, "github.com/go-sql-driver/mysql") then "github.com/go-sql-driver/mysql" else "github.com/ziutek/mymysql";
      WithinIsUnder(imp, root);
    }
  }

  lemma NoOtherDriver(imp: string)
    ensures !PostgresDriver(imp) && !MySQLDriver(imp) ==> DriverHome(imp) == None
  {
    hide DriverHome;
    if !PostgresDriver(imp) && !MySQLDriver(imp) {
      forall root | root in DRIVER_HOMES ensures !Under(imp, root) { RootIsListed(root); }
    }
  }

  lemma RootIsListed(root: string)
    requires root in DRIVER_HOMES
    ensures root in {"github.com/jackc/pgx", "github.com/jackc/pgconn", "github.com/jackc/pgproto3", "github.com/lib/pq",
                     "github.com/go-sql-driver/mysql", "github.com/ziutek/mymysql"}
  {
  }

  /** A first-party path and what is left of it without the module's own. */
  lemma InModule(path: string, dir: string)
    ensures HasPrefix(path, MODULE + "/") && path[|MODULE| + 1..] == dir <==> path == MODULE + "/" + dir
  {
    if HasPrefix(path, MODULE + "/") { assert path == path[..|MODULE| + 1] + path[|MODULE| + 1..]; }
  }

  lemma StoreByName()
    ensures MODULE + "/" + STORE == STORE_PACKAGE
  {
  }

  lemma PilotPostgresByName()
    ensures MODULE + "/" + PILOT_POSTGRES == PILOT_POSTGRES_PACKAGE
  {
  }

  lemma PilotMySQLByName()
    ensures MODULE + "/" + PILOT_MYSQL == PILOT_MYSQL_PACKAGE
  {
  }

  lemma PackagesByName()
    ensures MODULE + "/" + STORE == STORE_PACKAGE
    ensures MODULE + "/" + PILOT_POSTGRES == PILOT_POSTGRES_PACKAGE
    ensures MODULE + "/" + PILOT_MYSQL == PILOT_MYSQL_PACKAGE
  {
    StoreByName();
    PilotPostgresByName();
    PilotMySQLByName();
  }

  /** What is cut out of the graph is just those three. */
  lemma HomesByName(path: string)
    ensures IsPermittedHome(path) <==> Home(path)
  {
    PackagesByName();
    hide MODULE, STORE, PILOT_POSTGRES, PILOT_MYSQL;
    InModule(path, STORE);
    InModule(path, PILOT_POSTGRES);
    InModule(path, PILOT_MYSQL);
    HomesOfDrivers();
  }

  lemma HomesOfDrivers()
    ensures DRIVER_HOMES.Values == {STORE, PILOT_MYSQL}
  {
    RootsByName();
    forall home | home in DRIVER_HOMES.Values
      ensures home in {STORE, PILOT_MYSQL}
    {
      var root :| root in DRIVER_HOMES && DRIVER_HOMES[root] == home;
      RootIsListed(root);
    }
    assert DRIVER_HOMES["github.com/lib/pq"] in DRIVER_HOMES.Values;
    assert DRIVER_HOMES["github.com/ziutek/mymysql"] in DRIVER_HOMES.Values;
  }

  /** What the search calls a driver is one of the listed modules or a package of theirs. */
  lemma DriversByName(imp: string)
    ensures IsDriver(imp) <==> PostgresDriver(imp) || MySQLDriver(imp)
  {
    hide DriverHome, PostgresDriver, MySQLDriver;
    HomeOfPostgres(imp);
    HomeOfMySQL(imp);
    NoOtherDriver(imp);
  }

  lemma HomesDiffer()
    ensures STORE != PILOT_MYSQL && STORE != PILOT_POSTGRES && PILOT_MYSQL != PILOT_POSTGRES
  {
    assert STORE[9] != PILOT_MYSQL[9] && STORE[9] != PILOT_POSTGRES[9] && PILOT_MYSQL[15] != PILOT_POSTGRES[15];
  }

  lemma DirOfPackage(origin: string, dir: string)
    requires dir in {STORE, PILOT_POSTGRES, PILOT_MYSQL}
    ensures IsFirstParty(origin) && TrimPrefix(origin, MODULE + "/") == dir <==> origin == MODULE + "/" + dir
  {
    ModuleIsNoDir();
    InModule(origin, dir);
    if !HasPrefix(origin, MODULE + "/") { assert (MODULE + "/" + dir)[..|MODULE| + 1] == MODULE + "/"; }
  }

  lemma ModuleIsNoDir()
    ensures MODULE !in {STORE, PILOT_POSTGRES, PILOT_MYSQL}
  {
    assert MODULE[0] != STORE[0] && MODULE[0] != PILOT_POSTGRES[0] && MODULE[0] != PILOT_MYSQL[0];
  }

  /**
   A PostgreSQL driver may be held by the store and by the PostgreSQL Pilot and by nobody else; a MySQL
   driver by the MySQL Pilot and by nobody else.
   */
  lemma HoldersByName(origin: string, driver: string)
    ensures PostgresDriver(driver) ==> (MayHold(origin, driver) <==> origin == STORE_PACKAGE || origin == PILOT_POSTGRES_PACKAGE)
    ensures MySQLDriver(driver) ==> (MayHold(origin, driver) <==> origin == PILOT_MYSQL_PACKAGE)
  {
    HomeOfPostgres(driver);
    HomeOfMySQL(driver);
    HomesDiffer();
    PackagesByName();
    hide DriverHome, PostgresDriver, MySQLDriver, MODULE, STORE, PILOT_POSTGRES, PILOT_MYSQL, IsFirstParty, TrimPrefix;
    DirOfPackage(origin, STORE);
    DirOfPackage(origin, PILOT_POSTGRES);
    DirOfPackage(origin, PILOT_MYSQL);
  }

  /** A package that is none of the homes may hold no driver whatever, and of the homes none may hold another engine's. */
  lemma StrangersHoldNothing(origin: string, driver: string)
    ensures !Home(origin) && IsDriver(driver) ==> Forbidden(origin, driver)
    ensures origin == PILOT_MYSQL_PACKAGE && PostgresDriver(driver) ==> Forbidden(origin, driver)
    ensures (origin == STORE_PACKAGE || origin == PILOT_POSTGRES_PACKAGE) && MySQLDriver(driver) ==> Forbidden(origin, driver)
  {
    hide IsDriver, MayHold, PostgresDriver, MySQLDriver, STORE_PACKAGE, PILOT_POSTGRES_PACKAGE, PILOT_MYSQL_PACKAGE;
    DriversByName(driver);
    HoldersByName(origin, driver);
    PackagesDiffer();
  }

  lemma PackagesDiffer()
    ensures STORE_PACKAGE != PILOT_MYSQL_PACKAGE && PILOT_POSTGRES_PACKAGE != PILOT_MYSQL_PACKAGE
  {
    assert STORE_PACKAGE[38] != PILOT_MYSQL_PACKAGE[38] && PILOT_POSTGRES_PACKAGE[47] != PILOT_MYSQL_PACKAGE[47];
  }

  /** A chain of imports to any driver at all, by name, past no other driver and through no home. */
  ghost predicate DriverPath(g: Graph, start: string, p: seq<string>)
    decreases |p|
  {
    && p != [] && start in g && p[0] in g[start]
    && (if |p| == 1 then PostgresDriver(p[0]) || MySQLDriver(p[0])
        else !PostgresDriver(p[0]) && !MySQLDriver(p[0]) && !Home(p[0]) && DriverPath(g, p[0], p[1..]))
  }

  lemma {:induction false} StrangersPathsAreBad(g: Graph, origin: string, start: string, p: seq<string>)
    requires !Home(origin)
    ensures BadPath(g, origin, start, p) <==> DriverPath(g, start, p)
    decreases |p|
  {
    hide IsDriver, MayHold, PostgresDriver, MySQLDriver, Home, IsPermittedHome;
    if p != [] {
      DriversByName(p[0]);
      HomesByName(p[0]);
      StrangersHoldNothing(origin, p[0]);
      if |p| > 1 { StrangersPathsAreBad(g, origin, p[0], p[1..]); }
    }
  }

  /**
   So for a package that is no home there is something to report exactly when any chain of imports at
   all, not through a home, ends in any driver; and what is reported is such a chain.
   */
  lemma StrangersMayReachNone(g: Graph, path: string)
    requires !Home(path)
    ensures forall p :: BadPath(g, path, path, p) <==> DriverPath(g, path, p)
    ensures (exists p :: BadPath(g, path, path, p)) <==> (exists p :: DriverPath(g, path, p))
  {
    hide Home;
    forall p ensures BadPath(g, path, path, p) <==> DriverPath(g, path, p) {
      StrangersPathsAreBad(g, path, path, p);
    }
  }
}
