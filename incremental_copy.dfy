/** `IncrementalCopy`: the pipeline that lists a post directory, drops
    the ignored paths, offers the rest to each registered plugin in turn,
    rebuilds a plugin's files only when the staleness cache says one of
    them changed, and finally hands every file no plugin took to the
    endware, by default `Remaining`. */
module CopyPipeline {
  import opened Wrappers
  import opened Strings
  import opened Seqs
  import Paths
  import opened Cache
  import opened Plugins
  import opened Middleware

  /** The ignore list: a case-insensitive mention of an internal file
      name anywhere in the path, or a resized image variant under
      `files/`. */
  datatype IgnoreRule = Mentions(name: string) | SizedVariant(ext: string)

  const IGNORE: seq<IgnoreRule> :=
    [Mentions("post.json"), Mentions("index.md"), Mentions("summary.txt"), SizedVariant(".jpg"), SizedVariant(".avif")]

  const SIZES: seq<string> := ["xs", "sm", "md", "lg", "xl"]

  /** `files/<size>-` at the start of the lower-cased path. */
  predicate SizedPrefix(l: string)
  {
    |l| >= 9 && l[..6] == "files/" && l[6..8] in SIZES && l[8] == '-'
  }

  /** The anchored pattern `files/(xs|sm|md|lg|xl)-[^.]+<ext>`, decided at
      the first dot after the prefix, the only place `[^.]+` can stop. */
  predicate MatchesSized(l: string, ext: string)
  {
    SizedPrefix(l) &&
    match IndexOf(l[9..], ".")
    case None => false
    case Some(d) => d >= 1 && StartsWith(l[9 + d..], ext)
  }

  /** The same pattern read as the regular expression reads: some
      non-empty dot-free run after the prefix, then the extension. */
  predicate SizedSpec(l: string, ext: string)
  {
    SizedPrefix(l) &&
    exists k :: 10 <= k <= |l| && (forall j :: 9 <= j < k ==> l[j] != '.') && StartsWith(l[k..], ext)
  }

  /** Before the first dot of a text there is no dot. */
  lemma NoDotBefore(rest: string, d: nat, j: nat)
    requires IndexOf(rest, ".") == Some(d) && j < d
    ensures rest[j] != '.'
  {
    assert !ContainsAt(rest, ".", j);
    assert rest[j..j + 1] == [rest[j]];
  }

  lemma FirstDotAt(rest: string, d: nat)
    requires IndexOf(rest, ".") == Some(d)
    ensures d < |rest| && rest[d] == '.'
  {
    assert rest[d..d + 1] == ".";
  }

  lemma NoDot(rest: string, j: nat)
    requires IndexOf(rest, ".") == None && j < |rest|
    ensures rest[j] != '.'
  {
    assert !ContainsAt(rest, ".", j);
    assert rest[j..j + 1] == [rest[j]];
  }

  /** The first-dot test accepts exactly what the pattern matches. */
  lemma MatchesSizedIsSpec(l: string, ext: string)
    requires |ext| >= 1 && ext[0] == '.'
    ensures MatchesSized(l, ext) <==> SizedSpec(l, ext)
  {
    if SizedPrefix(l) {
      var rest := l[9..];
      if MatchesSized(l, ext) {
        var d := IndexOf(rest, ".").value;
        forall j | 9 <= j < 9 + d ensures l[j] != '.' {
          NoDotBefore(rest, d, j - 9);
        }
        assert l[9 + d..] == rest[d..];
      }
      if SizedSpec(l, ext) {
        var k :| 10 <= k <= |l| && (forall j :: 9 <= j < k ==> l[j] != '.') && StartsWith(l[k..], ext);
        assert l[k] == '.';
        if IndexOf(rest, ".") == None {
          NoDot(rest, k - 9);
        } else {
          var d := IndexOf(rest, ".").value;
          FirstDotAt(rest, d);
          if k < 9 + d {
            NoDotBefore(rest, d, k - 9);
          }
          assert 9 + d == k;
        }
      }
    }
  }

  /** One entry of the ignore list, tested on a relative path. */
  predicate Matches(rule: IgnoreRule, path: Paths.Path)
  {
    match rule
    case Mentions(name) => Contains(Lower(path), name)
    case SizedVariant(ext) => MatchesSized(Lower(path), ext)
  }

  /** `this.ignore.some(fn => fn(location))` */
  predicate IgnoredBy(rules: seq<IgnoreRule>, path: Paths.Path)
  {
    exists rule :: rule in rules && Matches(rule, path)
  }

  /** The listing without the ignored paths, in listing order. */
  function Unignored(rules: seq<IgnoreRule>, listing: seq<Paths.Path>): (r: seq<Paths.Path>)
    ensures forall x :: x in r <==> x in listing && !IgnoredBy(rules, x)
    ensures Distinct(listing) ==> Distinct(r)
  {
    var keep := x => !IgnoredBy(rules, x);
    assert Distinct(listing) ==> Distinct(Filter(listing, keep)) by {
      if Distinct(listing) { DistinctFilter(listing, keep); }
    }
    Filter(listing, keep)
  }

  /** The default list ignores the post's own record and old build
      products wherever they sit, and resized variants only at the start
      of the path. */
  lemma DefaultIgnores(path: Paths.Path)
    ensures Contains(Lower(path), "post.json") ==> IgnoredBy(IGNORE, path)
    ensures Contains(Lower(path), "index.md") ==> IgnoredBy(IGNORE, path)
    ensures Contains(Lower(path), "summary.txt") ==> IgnoredBy(IGNORE, path)
    ensures IgnoredBy(IGNORE, path) <==>
      Contains(Lower(path), "post.json") || Contains(Lower(path), "index.md") || Contains(Lower(path), "summary.txt")
      || SizedSpec(Lower(path), ".jpg") || SizedSpec(Lower(path), ".avif")
  {
    var l := Lower(path);
    MatchesSizedIsSpec(l, ".jpg");
    MatchesSizedIsSpec(l, ".avif");
    IgnoredByEach(IGNORE, path);
    assert Matches(IGNORE[0], path) == Contains(l, "post.json");
    assert Matches(IGNORE[1], path) == Contains(l, "index.md");
    assert Matches(IGNORE[2], path) == Contains(l, "summary.txt");
    assert Matches(IGNORE[3], path) == MatchesSized(l, ".jpg");
    assert Matches(IGNORE[4], path) == MatchesSized(l, ".avif");
  }

  /** A path is ignored exactly when some entry, by position, matches it. */
  lemma IgnoredByEach(rules: seq<IgnoreRule>, path: Paths.Path)
    ensures IgnoredBy(rules, path) <==> exists i :: 0 <= i < |rules| && Matches(rules[i], path)
  {
  }

  /** What happened when a plugin was offered the files. */
  datatype Decision = NotAccepted | Skipped | Rebuilt | Failed

  datatype Visit = Visit(plugin: Plugin, accepted: seq<Paths.Path>, decision: Decision)

  /** The state `process` threads through the plugins: the cache table,
      `handledFilePaths`, the visits so far, the actions taken and the
      failure that ended the copy, if any. */
  datatype PState = PState(table: Table, handled: seq<Paths.Path>, visits: seq<Visit>, actions: seq<Action>, error: Option<Failure>)

  /** One iteration of `process`: the plugin's accepted files join
      `handledFilePaths`; a plugin that accepted something is run when
      `shouldRebuild` says so. */
  function VisitPlugin(p: Plugin, st: PState, world: World, srcDir: Paths.Path, targetDir: Paths.Path, files: seq<Paths.Path>): PState
  {
    var accepted := Accepts(p, files);
    if |accepted| == 0 then st.(visits := st.visits + [Visit(p, accepted, NotAccepted)])
    else
      var handled := st.handled + accepted;
      match ShouldRebuild(st.table, world.disk, srcDir, accepted)
      case Err(e) => st.(handled := handled, visits := st.visits + [Visit(p, accepted, Failed)], error := Some(e))
      case Ok(false) => st.(handled := handled, visits := st.visits + [Visit(p, accepted, Skipped)])
      case Ok(true) =>
        var r := RunSpec(world.execute(p), st.table, world.disk, srcDir, targetDir, accepted);
        PState(r.table, handled, st.visits + [Visit(p, accepted, if r.error.Some? then Failed else Rebuilt)],
               st.actions + r.actions, r.error)
  }

  /** `process(srcDir, targetDir, plugins, files)`: every plugin in order,
      until one fails. */
  function ProcessSpec(plugins: seq<Plugin>, st: PState, world: World, srcDir: Paths.Path, targetDir: Paths.Path, files: seq<Paths.Path>): PState
    decreases |plugins|
  {
    if |plugins| == 0 || st.error.Some? then st
    else ProcessSpec(plugins[1..], VisitPlugin(plugins[0], st, world, srcDir, targetDir, files), world, srcDir, targetDir, files)
  }

  /** The files the recorded visits accepted, concatenated. */
  function Handled(visits: seq<Visit>): seq<Paths.Path>
  {
    if |visits| == 0 then [] else Handled(visits[..|visits| - 1]) + visits[|visits| - 1].accepted
  }

  lemma {:induction false} HandledMember(visits: seq<Visit>, x: Paths.Path)
    ensures x in Handled(visits) <==> exists k :: 0 <= k < |visits| && x in visits[k].accepted
  {
    if |visits| > 0 {
      var init := visits[..|visits| - 1];
      HandledMember(init, x);
      if exists k :: 0 <= k < |init| && x in init[k].accepted {
        var k :| 0 <= k < |init| && x in init[k].accepted;
        assert visits[k] == init[k];
      }
      if exists k :: 0 <= k < |visits| && x in visits[k].accepted {
        var k :| 0 <= k < |visits| && x in visits[k].accepted;
        if k < |init| { assert init[k] == visits[k]; }
      }
    }
  }

  /** `handledFilePaths` is the concatenation of what the visited plugins
      accepted. */
  predicate Accounted(st: PState)
  {
    st.handled == Handled(st.visits)
  }

  /** The visits `process` appends: one per plugin, in order, each offered
      the same full list; they stop early only at a failure, which is the
      last visit's. */
  predicate Offered(plugins: seq<Plugin>, visits: seq<Visit>, files: seq<Paths.Path>)
  {
    |visits| <= |plugins| &&
    forall k :: 0 <= k < |visits| ==> visits[k].plugin == plugins[k] && visits[k].accepted == Accepts(plugins[k], files)
  }

  /** One visit appends one record for the plugin, with the files it
      accepted, adds those files to `handledFilePaths`, and fails exactly
      when its record says so. */
  lemma VisitFacts(p: Plugin, st: PState, world: World, srcDir: Paths.Path, targetDir: Paths.Path, files: seq<Paths.Path>)
    requires st.error.None?
    ensures var st' := VisitPlugin(p, st, world, srcDir, targetDir, files);
      && st'.visits == st.visits + [Visit(p, Accepts(p, files), st'.visits[|st.visits|].decision)]
      && st'.handled == st.handled + Accepts(p, files)
      && (st'.error.Some? <==> st'.visits[|st.visits|].decision == Failed)
  {
  }

  /** The decision a visit records: a plugin that accepted nothing is
      passed over; otherwise `run` is invoked exactly when `shouldRebuild`
      answers true, and then the visit's table, actions and failure are
      the run's. A skipped plugin changes neither table nor actions, and
      a failing `shouldRebuild` ends the pass with its failure. */
  lemma VisitDecision(p: Plugin, st: PState, world: World, srcDir: Paths.Path, targetDir: Paths.Path, files: seq<Paths.Path>)
    requires st.error.None?
    ensures var st' := VisitPlugin(p, st, world, srcDir, targetDir, files);
      var accepted := Accepts(p, files);
      var decision := st'.visits[|st.visits|].decision;
      var check := ShouldRebuild(st.table, world.disk, srcDir, accepted);
      var r := RunSpec(world.execute(p), st.table, world.disk, srcDir, targetDir, accepted);
      && |st'.visits| == |st.visits| + 1
      && (decision == NotAccepted <==> accepted == [])
      && (decision == Skipped <==> accepted != [] && check == Ok(false))
      && (accepted != [] && check == Ok(true) ==>
            st'.table == r.table && st'.actions == st.actions + r.actions && st'.error == r.error
            && (decision == Rebuilt <==> r.error.None?))
      && (accepted != [] && check.Err? ==> decision == Failed && st'.error == Some(check.error))
      && (accepted == [] || check.Err? || check == Ok(false) ==> st'.table == st.table && st'.actions == st.actions)
  {
  }

  /** A plugin that accepted a file whose recorded mtime is stale is run,
      provided all its files exist (a missing one makes `shouldRebuild`
      throw first). */
  lemma StaleRuns(p: Plugin, st: PState, world: World, srcDir: Paths.Path, targetDir: Paths.Path, files: seq<Paths.Path>, k: nat)
    requires st.error.None?
    requires k < |Accepts(p, files)| && !Synced(st.table, world.disk, Paths.Join(srcDir, Accepts(p, files)[k]))
    requires forall j :: 0 <= j < |Accepts(p, files)| ==> Paths.Join(srcDir, Accepts(p, files)[j]) in world.disk
    ensures ShouldRebuild(st.table, world.disk, srcDir, Accepts(p, files)) == Ok(true)
    ensures var st' := VisitPlugin(p, st, world, srcDir, targetDir, files);
      var r := RunSpec(world.execute(p), st.table, world.disk, srcDir, targetDir, Accepts(p, files));
      st'.table == r.table && st'.actions == st.actions + r.actions && st'.error == r.error
  {
    var accepted := Accepts(p, files);
    ShouldRebuildIsSync(st.table, world.disk, srcDir, accepted);
    VisitDecision(p, st, world, srcDir, targetDir, files);
  }

  lemma {:induction false} ProcessAccounted(plugins: seq<Plugin>, st: PState, world: World, srcDir: Paths.Path, targetDir: Paths.Path, files: seq<Paths.Path>)
    requires Accounted(st)
    ensures Accounted(ProcessSpec(plugins, st, world, srcDir, targetDir, files))
    decreases |plugins|
  {
    if |plugins| > 0 && st.error.None? {
      var st' := VisitPlugin(plugins[0], st, world, srcDir, targetDir, files);
      VisitFacts(plugins[0], st, world, srcDir, targetDir, files);
      assert st'.visits[..|st'.visits| - 1] == st.visits;
      ProcessAccounted(plugins[1..], st', world, srcDir, targetDir, files);
    }
  }

  lemma {:induction false} ProcessOffered(plugins: seq<Plugin>, st: PState, world: World, srcDir: Paths.Path, targetDir: Paths.Path, files: seq<Paths.Path>)
    requires st.error.None?
    ensures var r := ProcessSpec(plugins, st, world, srcDir, targetDir, files);
      && |st.visits| <= |r.visits|
      && Offered(plugins, r.visits[|st.visits|..], files)
      && (r.error.None? ==> |r.visits| == |st.visits| + |plugins|)
      && (r.error.None? ==> forall k :: |st.visits| <= k < |r.visits| ==> r.visits[k].decision != Failed)
    decreases |plugins|
  {
    var r := ProcessSpec(plugins, st, world, srcDir, targetDir, files);
    if |plugins| > 0 {
      var st' := VisitPlugin(plugins[0], st, world, srcDir, targetDir, files);
      VisitFacts(plugins[0], st, world, srcDir, targetDir, files);
      var n := |st.visits|;
      if st'.error.Some? {
        assert r.visits[n..] == [st'.visits[n]];
      } else {
        ProcessOffered(plugins[1..], st', world, srcDir, targetDir, files);
        ProcessPrefix(plugins[1..], st', world, srcDir, targetDir, files);
        assert r.visits[n..] == [st'.visits[n]] + r.visits[n + 1..];
        OfferedCons(plugins, st'.visits[n], r.visits[n + 1..], files);
      }
    }
  }

  /** A visit of the first plugin followed by visits offered to the rest. */
  lemma OfferedCons(plugins: seq<Plugin>, v: Visit, tail: seq<Visit>, files: seq<Paths.Path>)
    requires |plugins| > 0 && v.plugin == plugins[0] && v.accepted == Accepts(plugins[0], files)
    requires Offered(plugins[1..], tail, files)
    ensures Offered(plugins, [v] + tail, files)
  {
    var vs := [v] + tail;
    forall k | 0 <= k < |vs|
      ensures vs[k].plugin == plugins[k] && vs[k].accepted == Accepts(plugins[k], files)
    {
      if k > 0 {
        assert vs[k] == tail[k - 1];
        assert plugins[k] == plugins[1..][k - 1];
      }
    }
  }

  /** A row in sync stays in sync through `process`. */
  lemma {:induction false} ProcessKeeps(plugins: seq<Plugin>, st: PState, world: World, srcDir: Paths.Path, targetDir: Paths.Path, files: seq<Paths.Path>, q: Paths.Path)
    requires Synced(st.table, world.disk, q)
    ensures Synced(ProcessSpec(plugins, st, world, srcDir, targetDir, files).table, world.disk, q)
    decreases |plugins|
  {
    if |plugins| > 0 && st.error.None? {
      var p := plugins[0];
      var accepted := Accepts(p, files);
      if |accepted| > 0 && ShouldRebuild(st.table, world.disk, srcDir, accepted) == Ok(true) {
        RunKeeps(world.execute(p), st.table, world.disk, srcDir, targetDir, accepted, q);
      }
      ProcessKeeps(plugins[1..], VisitPlugin(p, st, world, srcDir, targetDir, files), world, srcDir, targetDir, files, q);
    }
  }

  /** After a `process` in which nothing failed, every file any plugin
      accepted is in sync with the disk. */
  lemma {:induction false} ProcessSyncs(plugins: seq<Plugin>, st: PState, world: World, srcDir: Paths.Path, targetDir: Paths.Path, files: seq<Paths.Path>)
    requires st.error.None?
    requires ProcessSpec(plugins, st, world, srcDir, targetDir, files).error.None?
    ensures forall k :: 0 <= k < |plugins| ==>
      AllSynced(ProcessSpec(plugins, st, world, srcDir, targetDir, files).table, world.disk, srcDir, Accepts(plugins[k], files))
    decreases |plugins|
  {
    if |plugins| > 0 {
      var p := plugins[0];
      var accepted := Accepts(p, files);
      var st' := VisitPlugin(p, st, world, srcDir, targetDir, files);
      var r := ProcessSpec(plugins, st, world, srcDir, targetDir, files);
      assert r == ProcessSpec(plugins[1..], st', world, srcDir, targetDir, files);
      ProcessSyncs(plugins[1..], st', world, srcDir, targetDir, files);
      assert AllSynced(st'.table, world.disk, srcDir, accepted) by {
        if |accepted| > 0 {
          ShouldRebuildIsSync(st.table, world.disk, srcDir, accepted);
          if ShouldRebuild(st.table, world.disk, srcDir, accepted) == Ok(true) {
            RunThenSkip(world.execute(p), st.table, world.disk, srcDir, targetDir, accepted);
            ShouldRebuildIsSync(st'.table, world.disk, srcDir, accepted);
          }
        }
      }
      forall j | 0 <= j < |accepted| ensures Synced(r.table, world.disk, Paths.Join(srcDir, accepted[j])) {
        ProcessKeeps(plugins[1..], st', world, srcDir, targetDir, files, Paths.Join(srcDir, accepted[j]));
      }
      forall k | 1 <= k < |plugins| ensures AllSynced(r.table, world.disk, srcDir, Accepts(plugins[k], files)) {
        assert plugins[k] == plugins[1..][k - 1];
      }
    }
  }

  /** A plugin whose files are all in sync is skipped. */
  lemma VisitQuiet(p: Plugin, st: PState, world: World, srcDir: Paths.Path, targetDir: Paths.Path, files: seq<Paths.Path>)
    requires st.error.None?
    requires AllSynced(st.table, world.disk, srcDir, Accepts(p, files))
    ensures var accepted := Accepts(p, files);
      VisitPlugin(p, st, world, srcDir, targetDir, files)
      == st.(handled := st.handled + accepted,
             visits := st.visits + [Visit(p, accepted, if |accepted| == 0 then NotAccepted else Skipped)])
  {
    var accepted := Accepts(p, files);
    ShouldRebuildIsSync(st.table, world.disk, srcDir, accepted);
    if |accepted| == 0 {
      assert st.handled + accepted == st.handled;
    }
  }

  /** When every plugin's files are already in sync, `process` rebuilds
      nothing: it only records the accepted files and skips. */
  lemma {:induction false} ProcessQuiet(plugins: seq<Plugin>, st: PState, world: World, srcDir: Paths.Path, targetDir: Paths.Path, files: seq<Paths.Path>)
    requires st.error.None?
    requires forall k :: 0 <= k < |plugins| ==> AllSynced(st.table, world.disk, srcDir, Accepts(plugins[k], files))
    ensures var r := ProcessSpec(plugins, st, world, srcDir, targetDir, files);
      && r.table == st.table && r.actions == st.actions && r.error.None?
      && forall k :: |st.visits| <= k < |r.visits| ==> r.visits[k].decision != Rebuilt
    decreases |plugins|
  {
    if |plugins| > 0 {
      var p := plugins[0];
      assert AllSynced(st.table, world.disk, srcDir, Accepts(p, files));
      VisitQuiet(p, st, world, srcDir, targetDir, files);
      var st' := VisitPlugin(p, st, world, srcDir, targetDir, files);
      forall k | 0 <= k < |plugins[1..]| ensures AllSynced(st'.table, world.disk, srcDir, Accepts(plugins[1..][k], files)) {
        assert plugins[1..][k] == plugins[k + 1];
      }
      ProcessQuiet(plugins[1..], st', world, srcDir, targetDir, files);
      ProcessPrefix(plugins[1..], st', world, srcDir, targetDir, files);
      var r := ProcessSpec(plugins, st, world, srcDir, targetDir, files);
      forall k | |st.visits| <= k < |r.visits| ensures r.visits[k].decision != Rebuilt {
        if k == |st.visits| {
          assert r.visits[k] == st'.visits[k];
        }
      }
    }
  }

  /** `process` only appends to the visits. */
  lemma {:induction false} ProcessPrefix(plugins: seq<Plugin>, st: PState, world: World, srcDir: Paths.Path, targetDir: Paths.Path, files: seq<Paths.Path>)
    ensures var r := ProcessSpec(plugins, st, world, srcDir, targetDir, files);
      |st.visits| <= |r.visits| && r.visits[..|st.visits|] == st.visits
    decreases |plugins|
  {
    if |plugins| > 0 && st.error.None? {
      var st' := VisitPlugin(plugins[0], st, world, srcDir, targetDir, files);
      VisitFacts(plugins[0], st, world, srcDir, targetDir, files);
      ProcessPrefix(plugins[1..], st', world, srcDir, targetDir, files);
      var r := ProcessSpec(plugins, st, world, srcDir, targetDir, files);
      assert r == ProcessSpec(plugins[1..], st', world, srcDir, targetDir, files);
      assert r.visits[..|st'.visits|] == st'.visits;
      assert r.visits[..|st.visits|] == st'.visits[..|st.visits|];
    }
  }

  /** The end of `copy`: the unignored listing, the state after the
      middleware, the files left to the endware, and the final state. A
      failure in the middleware ends the copy there, before the endware. */
  datatype CopyRun = CopyRun(filtered: seq<Paths.Path>, first: PState, remaining: seq<Paths.Path>, last: PState)

  /** `copy(srcDir, targetDir)` over the recursive listing of `srcDir`. */
  function CopySpec(ignore: seq<IgnoreRule>, middleware: seq<Plugin>, endware: seq<Plugin>, table: Table, world: World,
                    srcDir: Paths.Path, targetDir: Paths.Path, listing: seq<Paths.Path>): CopyRun
  {
    var filtered := Unignored(ignore, listing);
    var first := ProcessSpec(middleware, PState(table, [], [], [], None), world, srcDir, targetDir, filtered);
    if first.error.Some? then CopyRun(filtered, first, [], first)
    else
      var remaining := Difference(filtered, first.handled);
      CopyRun(filtered, first, remaining, ProcessSpec(endware, first, world, srcDir, targetDir, remaining))
  }

  /** Every registered plugin, in registration order, is offered the whole
      unignored listing; it is offered nothing ignored; `handledFilePaths`
      is what they accepted, in order. */
  lemma CopyOffers(ignore: seq<IgnoreRule>, middleware: seq<Plugin>, endware: seq<Plugin>, table: Table, world: World,
                   srcDir: Paths.Path, targetDir: Paths.Path, listing: seq<Paths.Path>)
    ensures var c := CopySpec(ignore, middleware, endware, table, world, srcDir, targetDir, listing);
      && (forall x :: x in c.filtered ==> !IgnoredBy(ignore, x))
      && Offered(middleware, c.first.visits, c.filtered)
      && (c.first.error.None? ==> |c.first.visits| == |middleware|)
      && c.first.handled == Handled(c.first.visits)
  {
    var c := CopySpec(ignore, middleware, endware, table, world, srcDir, targetDir, listing);
    var init := PState(table, [], [], [], None);
    ProcessOffered(middleware, init, world, srcDir, targetDir, c.filtered);
    ProcessAccounted(middleware, init, world, srcDir, targetDir, c.filtered);
    assert c.first.visits[0..] == c.first.visits;
  }

  /** The files left to the endware keep the order of their first
      appearance in the unignored listing; a listing without repeats
      keeps them in place, as a filter of it. */
  lemma RemainingOrder(ignore: seq<IgnoreRule>, middleware: seq<Plugin>, endware: seq<Plugin>, table: Table, world: World,
                       srcDir: Paths.Path, targetDir: Paths.Path, listing: seq<Paths.Path>)
    requires CopySpec(ignore, middleware, endware, table, world, srcDir, targetDir, listing).first.error.None?
    ensures var c := CopySpec(ignore, middleware, endware, table, world, srcDir, targetDir, listing);
      && InFirstOrder(c.remaining, c.filtered)
      && (Distinct(listing) ==> c.remaining == Filter(c.filtered, y => y !in c.first.handled))
  {
  }

  /** The files left to the endware are exactly the unignored files no
      registered plugin accepted, each once. */
  lemma RemainingExact(ignore: seq<IgnoreRule>, middleware: seq<Plugin>, endware: seq<Plugin>, table: Table, world: World,
                       srcDir: Paths.Path, targetDir: Paths.Path, listing: seq<Paths.Path>, x: Paths.Path)
    requires CopySpec(ignore, middleware, endware, table, world, srcDir, targetDir, listing).first.error.None?
    ensures var c := CopySpec(ignore, middleware, endware, table, world, srcDir, targetDir, listing);
      && (x in c.remaining <==> x in listing && !IgnoredBy(ignore, x) && forall k :: 0 <= k < |middleware| ==> x !in Accepts(middleware[k], c.filtered))
      && Distinct(c.remaining)
  {
    var c := CopySpec(ignore, middleware, endware, table, world, srcDir, targetDir, listing);
    CopyOffers(ignore, middleware, endware, table, world, srcDir, targetDir, listing);
    HandledMember(c.first.visits, x);
    if exists k :: 0 <= k < |middleware| && x in Accepts(middleware[k], c.filtered) {
      var k :| 0 <= k < |middleware| && x in Accepts(middleware[k], c.filtered);
      assert x in c.first.visits[k].accepted;
    }
  }

  /** With the default endware every unignored file ends up handled: what
      no plugin took, `Remaining` takes. */
  lemma DefaultEndwareTakesRest(ignore: seq<IgnoreRule>, middleware: seq<Plugin>, table: Table, world: World,
                                srcDir: Paths.Path, targetDir: Paths.Path, listing: seq<Paths.Path>)
    requires CopySpec(ignore, middleware, [Remaining], table, world, srcDir, targetDir, listing).first.error.None?
    ensures var c := CopySpec(ignore, middleware, [Remaining], table, world, srcDir, targetDir, listing);
      && c.last.handled == c.first.handled + c.remaining
      && forall x :: x in c.filtered ==> x in c.last.handled
  {
    var c := CopySpec(ignore, middleware, [Remaining], table, world, srcDir, targetDir, listing);
    VisitFacts(Remaining, c.first, world, srcDir, targetDir, c.remaining);
    FilterAll(c.remaining, x => Claims(Remaining, x));
    var st' := VisitPlugin(Remaining, c.first, world, srcDir, targetDir, c.remaining);
    assert c.last == ProcessSpec([], st', world, srcDir, targetDir, c.remaining);
  }

  /** A table row in sync stays in sync through a whole copy. */
  lemma AllSyncedKept(plugins: seq<Plugin>, st: PState, world: World, srcDir: Paths.Path, targetDir: Paths.Path,
                      files: seq<Paths.Path>, accepted: seq<Paths.Path>)
    requires AllSynced(st.table, world.disk, srcDir, accepted)
    ensures AllSynced(ProcessSpec(plugins, st, world, srcDir, targetDir, files).table, world.disk, srcDir, accepted)
  {
    forall j | 0 <= j < |accepted|
      ensures Synced(ProcessSpec(plugins, st, world, srcDir, targetDir, files).table, world.disk, Paths.Join(srcDir, accepted[j]))
    {
      ProcessKeeps(plugins, st, world, srcDir, targetDir, files, Paths.Join(srcDir, accepted[j]));
    }
  }

  lemma {:induction false} HandledSame(v1: seq<Visit>, v2: seq<Visit>)
    requires |v1| == |v2| && forall k :: 0 <= k < |v1| ==> v1[k].accepted == v2[k].accepted
    ensures Handled(v1) == Handled(v2)
  {
    if |v1| > 0 {
      HandledSame(v1[..|v1| - 1], v2[..|v2| - 1]);
    }
  }

  /** A second copy right after one that completed, with nothing changed
      on disk, rebuilds nothing, takes no action and leaves the cache as
      it was. */
  lemma CopyIdempotent(ignore: seq<IgnoreRule>, middleware: seq<Plugin>, endware: seq<Plugin>, table: Table, world: World,
                       srcDir: Paths.Path, targetDir: Paths.Path, listing: seq<Paths.Path>)
    requires CopySpec(ignore, middleware, endware, table, world, srcDir, targetDir, listing).last.error.None?
    ensures var c1 := CopySpec(ignore, middleware, endware, table, world, srcDir, targetDir, listing);
      var c2 := CopySpec(ignore, middleware, endware, c1.last.table, world, srcDir, targetDir, listing);
      && c2.last.error.None?
      && c2.last.table == c1.last.table
      && c2.last.actions == []
      && forall k :: 0 <= k < |c2.last.visits| ==> c2.last.visits[k].decision != Rebuilt
  {
    var c1 := CopySpec(ignore, middleware, endware, table, world, srcDir, targetDir, listing);
    var t1 := c1.last.table;
    var c2 := CopySpec(ignore, middleware, endware, t1, world, srcDir, targetDir, listing);
    var filtered := c1.filtered;
    var init1 := PState(table, [], [], [], None);
    var init2 := PState(t1, [], [], [], None);
    assert c1.first.error.None?;
    // Every middleware list is in sync after the first copy.
    ProcessSyncs(middleware, init1, world, srcDir, targetDir, filtered);
    forall k | 0 <= k < |middleware| ensures AllSynced(t1, world.disk, srcDir, Accepts(middleware[k], filtered)) {
      AllSyncedKept(endware, c1.first, world, srcDir, targetDir, c1.remaining, Accepts(middleware[k], filtered));
    }
    ProcessQuiet(middleware, init2, world, srcDir, targetDir, filtered);
    assert c2.first.error.None? && c2.first.table == t1 && c2.first.actions == [];
    // The second copy leaves the endware the same files.
    CopyOffers(ignore, middleware, endware, table, world, srcDir, targetDir, listing);
    CopyOffers(ignore, middleware, endware, t1, world, srcDir, targetDir, listing);
    HandledSame(c1.first.visits, c2.first.visits);
    assert c2.remaining == c1.remaining;
    ProcessSyncs(endware, c1.first, world, srcDir, targetDir, c1.remaining);
    ProcessQuiet(endware, c2.first, world, srcDir, targetDir, c2.remaining);
    ProcessPrefix(endware, c2.first, world, srcDir, targetDir, c2.remaining);
    forall k | 0 <= k < |c2.last.visits| ensures c2.last.visits[k].decision != Rebuilt {
      if k < |c2.first.visits| {
        assert c2.last.visits[k] == c2.first.visits[k];
      }
    }
  }

  /** The copier: its registered plugins, its endware, its ignore list
      and the files the last copy handed to a plugin. */
  class IncrementalCopy {
    var middleware: seq<Plugin>
    var endware: seq<Plugin>
    const ignore: seq<IgnoreRule>
    var handledFilePaths: seq<Paths.Path>

    constructor ()
      ensures middleware == [] && endware == [Remaining] && ignore == IGNORE && handledFilePaths == []
    {
      middleware := [];
      endware := [Remaining];
      ignore := IGNORE;
      handledFilePaths := [];
    }

    /** `use(plugin)`: registers the plugin after the others and returns
        the copier for chaining. */
    method Use(plugin: Plugin) returns (self: IncrementalCopy)
      modifies this
      ensures self == this
      ensures middleware == old(middleware) + [plugin]
      ensures endware == old(endware) && handledFilePaths == old(handledFilePaths)
    {
      middleware := middleware + [plugin];
      self := this;
    }

    /** `process(srcDir, targetDir, plugins, files)`, continuing the given
        visit and action logs. */
    method Process(cache: StalenessCache, world: World, srcDir: Paths.Path, targetDir: Paths.Path,
                   plugins: seq<Plugin>, files: seq<Paths.Path>, visitsIn: seq<Visit>, actionsIn: seq<Action>)
        returns (visits: seq<Visit>, actions: seq<Action>, error: Option<Failure>)
      modifies this, cache
      ensures ProcessSpec(plugins, PState(old(cache.rows), old(handledFilePaths), visitsIn, actionsIn, None), world, srcDir, targetDir, files)
        == PState(cache.rows, handledFilePaths, visits, actions, error)
      ensures middleware == old(middleware) && endware == old(endware)
    {
      visits, actions, error := visitsIn, actionsIn, None;
      ghost var whole := ProcessSpec(plugins, PState(cache.rows, handledFilePaths, visits, actions, None), world, srcDir, targetDir, files);
      var i := 0;
      while i < |plugins|
        invariant 0 <= i <= |plugins|
        invariant ProcessSpec(plugins[i..], PState(cache.rows, handledFilePaths, visits, actions, None), world, srcDir, targetDir, files) == whole
        invariant middleware == old(middleware) && endware == old(endware)
      {
        var plugin := plugins[i];
        ghost var st := PState(cache.rows, handledFilePaths, visits, actions, None);
        ghost var st' := VisitPlugin(plugin, st, world, srcDir, targetDir, files);
        assert plugins[i..][0] == plugin && plugins[i..][1..] == plugins[i + 1..];
        assert whole == ProcessSpec(plugins[i + 1..], st', world, srcDir, targetDir, files);
        var accepted := Accepts(plugin, files);
        if |accepted| > 0 {
          handledFilePaths := handledFilePaths + accepted;
          var changed := ShouldRebuild(cache.rows, world.disk, srcDir, accepted);
          if changed.Err? {
            visits := visits + [Visit(plugin, accepted, Failed)];
            error := Some(changed.error);
            return;
          }
          if changed.value {
            var acts, err := Run(world.execute(plugin), cache, world.disk, srcDir, targetDir, accepted);
            actions := actions + acts;
            visits := visits + [Visit(plugin, accepted, if err.Some? then Failed else Rebuilt)];
            if err.Some? {
              error := err;
              return;
            }
          } else {
            visits := visits + [Visit(plugin, accepted, Skipped)];
          }
        } else {
          visits := visits + [Visit(plugin, accepted, NotAccepted)];
        }
        i := i + 1;
      }
    }

    /** `copy(srcDir, targetDir)` over the listing of `srcDir`: the
        registered plugins on the unignored files, then the endware on
        what none of them handled. */
    method Copy(cache: StalenessCache, world: World, srcDir: Paths.Path, targetDir: Paths.Path, listing: seq<Paths.Path>)
        returns (visits: seq<Visit>, actions: seq<Action>, error: Option<Failure>)
      modifies this, cache
      ensures var c := CopySpec(ignore, old(middleware), old(endware), old(cache.rows), world, srcDir, targetDir, listing);
        && cache.rows == c.last.table && handledFilePaths == c.last.handled
        && visits == c.last.visits && actions == c.last.actions && error == c.last.error
      ensures middleware == old(middleware) && endware == old(endware)
    {
      handledFilePaths := [];
      var filtered := Unignored(ignore, listing);
      visits, actions, error := Process(cache, world, srcDir, targetDir, middleware, filtered, [], []);
      if error.Some? {
        return;
      }
      var remaining := Difference(filtered, handledFilePaths);
      visits, actions, error := Process(cache, world, srcDir, targetDir, endware, remaining, visits, actions);
    }
  }
}
