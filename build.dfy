/** The build script (`build.js`): the task list `gatherTasks` puts
    together from three directory listings, and the tally of settled
    tasks. The listings are inputs; the pool the tasks are run on is the
    `WorkerPool` class of module Pool, which `build.js` repeats
    verbatim. */
module Build {
  import opened Wrappers
  import opened Strings
  import opened Seqs
  import opened Worker
  import opened Pool

  const POST_TEMPLATE := "./templates/post.html"

  /** One page per post file: the output name has its first ".json"
      replaced by ".html". */
  function HtmlTask(post: string): Task
  {
    Task("generate-html", "content/posts/" + post, Some("dist/posts/" + ReplaceFirst(post, ".json", ".html")),
         Some(POST_TEMPLATE), None, None)
  }

  const INDEX_TASK := Task("generate-index", "./content/posts", Some("./dist/index.html"), Some("./templates/index.html"), None, None)

  function CopyTask(asset: string): Task
  {
    Task("copy-file", "static/" + asset, Some("dist/" + asset), None, None, None)
  }

  /** `/\.(jpg|png|jpeg)$/`, case-sensitive. */
  predicate IsImage(name: string)
  {
    EndsWith(name, ".jpg") || EndsWith(name, ".png") || EndsWith(name, ".jpeg")
  }

  function Images(listing: seq<string>): (r: seq<string>)
    ensures forall f :: f in r <==> f in listing && IsImage(f)
  {
    Filter(listing, IsImage)
  }

  function ImageTask(image: string): Task
  {
    Task("optimize-image", "images/" + image, Some("dist/images/" + image), None, Some(80), None)
  }

  const RSS_TASK := Task("generate-rss", "./content/posts", Some("./dist/feed.xml"), None, None, None)

  const SITEMAP_TASK := Task("generate-sitemap", "./content/posts", Some("./dist/sitemap.xml"), None, None, Some("https://example.com"))

  /** One task per name, in order. */
  function TasksFor(names: seq<string>, make: string -> Task): (r: seq<Task>)
    ensures |r| == |names| && forall i :: 0 <= i < |names| ==> r[i] == make(names[i])
  {
    seq(|names|, i requires 0 <= i < |names| => make(names[i]))
  }

  /** The task list, in the order it is built: pages, index, copies,
      images, feed, sitemap. */
  function Catalog(posts: seq<string>, assets: seq<string>, images: seq<string>): seq<Task>
  {
    TasksFor(JsonFiles(posts), HtmlTask) + [INDEX_TASK] + TasksFor(assets, CopyTask)
      + TasksFor(Images(images), ImageTask) + [RSS_TASK, SITEMAP_TASK]
  }

  /** `gatherTasks`: three loops pushing onto `tasks`, with the three
      single tasks between them. */
  method GatherTasks(posts: seq<string>, assets: seq<string>, images: seq<string>) returns (tasks: seq<Task>)
    ensures tasks == Catalog(posts, assets, images)
  {
    tasks := [];
    var postFiles := JsonFiles(posts);
    var i := 0;
    while i < |postFiles|
      invariant 0 <= i <= |postFiles|
      invariant tasks == TasksFor(postFiles[..i], HtmlTask)
    {
      tasks := tasks + [HtmlTask(postFiles[i])];
      i := i + 1;
    }
    assert postFiles[..i] == postFiles;
    tasks := tasks + [INDEX_TASK];
    ghost var head := tasks;
    i := 0;
    while i < |assets|
      invariant 0 <= i <= |assets|
      invariant tasks == head + TasksFor(assets[..i], CopyTask)
    {
      tasks := tasks + [CopyTask(assets[i])];
      i := i + 1;
    }
    assert assets[..i] == assets;
    head := tasks;
    var imageFiles := Images(images);
    i := 0;
    while i < |imageFiles|
      invariant 0 <= i <= |imageFiles|
      invariant tasks == head + TasksFor(imageFiles[..i], ImageTask)
    {
      tasks := tasks + [ImageTask(imageFiles[i])];
      i := i + 1;
    }
    assert imageFiles[..i] == imageFiles;
    tasks := tasks + [RSS_TASK];
    tasks := tasks + [SITEMAP_TASK];
  }

  function KindIs(kind: string): Task -> bool
  {
    (t: Task) => t.kind == kind
  }

  /** The tasks of one type, in list order. */
  function OfKind(tasks: seq<Task>, kind: string): seq<Task>
  {
    Filter(tasks, KindIs(kind))
  }

  lemma OfKindTasks(names: seq<string>, make: string -> Task, kind: string, k: string)
    requires forall n :: make(n).kind == kind
    ensures OfKind(TasksFor(names, make), k) == if k == kind then TasksFor(names, make) else []
  {
    if k == kind {
      FilterAll(TasksFor(names, make), KindIs(k));
    } else {
      FilterNone(TasksFor(names, make), KindIs(k));
    }
  }

  lemma OfKindOne(t: Task, k: string)
    ensures OfKind([t], k) == if t.kind == k then [t] else []
  {
    assert [t][1..] == [];
  }

  /** Taken type by type, the list holds one page per post file, one
      copy per static entry and one image task per image, each in
      listing order, and exactly one index, feed and sitemap task. */
  lemma {:induction false} CatalogByKind(posts: seq<string>, assets: seq<string>, images: seq<string>)
    ensures var c := Catalog(posts, assets, images);
      && OfKind(c, "generate-html") == TasksFor(JsonFiles(posts), HtmlTask)
      && OfKind(c, "generate-index") == [INDEX_TASK]
      && OfKind(c, "copy-file") == TasksFor(assets, CopyTask)
      && OfKind(c, "optimize-image") == TasksFor(Images(images), ImageTask)
      && OfKind(c, "generate-rss") == [RSS_TASK]
      && OfKind(c, "generate-sitemap") == [SITEMAP_TASK]
  {
    CatalogHtml(posts, assets, images);
    CatalogIndex(posts, assets, images);
    CatalogCopies(posts, assets, images);
    CatalogImages(posts, assets, images);
    CatalogRss(posts, assets, images);
    CatalogSitemap(posts, assets, images);
  }

  lemma CatalogHtml(posts: seq<string>, assets: seq<string>, images: seq<string>)
    ensures OfKind(Catalog(posts, assets, images), "generate-html") == TasksFor(JsonFiles(posts), HtmlTask)
  {
    KindsDistinct();
    CatalogKind(posts, assets, images, "generate-html");
  }

  lemma CatalogIndex(posts: seq<string>, assets: seq<string>, images: seq<string>)
    ensures OfKind(Catalog(posts, assets, images), "generate-index") == [INDEX_TASK]
  {
    KindsDistinct();
    CatalogKind(posts, assets, images, "generate-index");
  }

  lemma CatalogCopies(posts: seq<string>, assets: seq<string>, images: seq<string>)
    ensures OfKind(Catalog(posts, assets, images), "copy-file") == TasksFor(assets, CopyTask)
  {
    KindsDistinct();
    CatalogKind(posts, assets, images, "copy-file");
  }

  lemma CatalogImages(posts: seq<string>, assets: seq<string>, images: seq<string>)
    ensures OfKind(Catalog(posts, assets, images), "optimize-image") == TasksFor(Images(images), ImageTask)
  {
    KindsDistinct();
    CatalogKind(posts, assets, images, "optimize-image");
  }

  lemma CatalogRss(posts: seq<string>, assets: seq<string>, images: seq<string>)
    ensures OfKind(Catalog(posts, assets, images), "generate-rss") == [RSS_TASK]
  {
    KindsDistinct();
    CatalogKind(posts, assets, images, "generate-rss");
  }

  lemma CatalogSitemap(posts: seq<string>, assets: seq<string>, images: seq<string>)
    ensures OfKind(Catalog(posts, assets, images), "generate-sitemap") == [SITEMAP_TASK]
  {
    KindsDistinct();
    CatalogKind(posts, assets, images, "generate-sitemap");
  }

  /** The six task types are different strings. */
  lemma KindsDistinct()
    ensures "generate-index" != "generate-html" && "copy-file" != "generate-html"
    ensures "optimize-image" != "generate-html" && "generate-rss" != "generate-html" && "generate-sitemap" != "generate-html"
    ensures "copy-file" != "generate-index" && "optimize-image" != "generate-index"
    ensures "generate-rss" != "generate-index" && "generate-sitemap" != "generate-index"
    ensures "optimize-image" != "copy-file" && "generate-rss" != "copy-file" && "generate-sitemap" != "copy-file"
    ensures "generate-rss" != "optimize-image" && "generate-sitemap" != "optimize-image"
    ensures "generate-sitemap" != "generate-rss"
  {
    assert "generate-index"[0] != "optimize-image"[0];
  }

  lemma CatalogKind(posts: seq<string>, assets: seq<string>, images: seq<string>, k: string)
    ensures OfKind(Catalog(posts, assets, images), k)
      == (if k == "generate-html" then TasksFor(JsonFiles(posts), HtmlTask) else [])
       + (if k == "generate-index" then [INDEX_TASK] else [])
       + (if k == "copy-file" then TasksFor(assets, CopyTask) else [])
       + (if k == "optimize-image" then TasksFor(Images(images), ImageTask) else [])
       + (if k == "generate-rss" then [RSS_TASK] else []) + (if k == "generate-sitemap" then [SITEMAP_TASK] else [])
  {
    var h := TasksFor(JsonFiles(posts), HtmlTask);
    var a := TasksFor(assets, CopyTask);
    var m := TasksFor(Images(images), ImageTask);
    CatalogParts(h, a, m, k);
    OfKindTasks(JsonFiles(posts), HtmlTask, "generate-html", k);
    OfKindTasks(assets, CopyTask, "copy-file", k);
    OfKindTasks(Images(images), ImageTask, "optimize-image", k);
    OfKindOne(INDEX_TASK, k);
    OfKindOne(RSS_TASK, k);
    OfKindOne(SITEMAP_TASK, k);
  }

  /** The tasks of one type are those of each part, part after part. */
  lemma CatalogParts(h: seq<Task>, a: seq<Task>, m: seq<Task>, k: string)
    ensures OfKind(h + [INDEX_TASK] + a + m + [RSS_TASK, SITEMAP_TASK], k)
      == OfKind(h, k) + OfKind([INDEX_TASK], k) + OfKind(a, k) + OfKind(m, k) + OfKind([RSS_TASK], k) + OfKind([SITEMAP_TASK], k)
  {
    var f := KindIs(k);
    FilterAppend(h, [INDEX_TASK], f);
    FilterAppend(h + [INDEX_TASK], a, f);
    FilterAppend(h + [INDEX_TASK] + a, m, f);
    FilterAppend(h + [INDEX_TASK] + a + m, [RSS_TASK], f);
    FilterAppend(h + [INDEX_TASK] + a + m + [RSS_TASK], [SITEMAP_TASK], f);
    assert h + [INDEX_TASK] + a + m + [RSS_TASK, SITEMAP_TASK] == h + [INDEX_TASK] + a + m + [RSS_TASK] + [SITEMAP_TASK];
  }

  /** The list's length and where the single tasks sit. */
  lemma CatalogLayout(posts: seq<string>, assets: seq<string>, images: seq<string>)
    ensures var c := Catalog(posts, assets, images);
      var p, n := |JsonFiles(posts)|, |Images(images)|;
      && |c| == p + |assets| + n + 3
      && c[p] == INDEX_TASK
      && c[p + 1 + |assets| + n] == RSS_TASK
      && c[|c| - 1] == SITEMAP_TASK
      && (forall i :: 0 <= i < p ==> c[i] == HtmlTask(JsonFiles(posts)[i]))
      && (forall i :: 0 <= i < |assets| ==> c[p + 1 + i] == CopyTask(assets[i]))
      && (forall i :: 0 <= i < n ==> c[p + 1 + |assets| + i] == ImageTask(Images(images)[i]))
  {
  }

  /** A post file whose first ".json" is its suffix is rendered to the
      same name with ".html". */
  lemma HtmlOutput(name: string)
    requires IndexOf(name + ".json", ".json") == Some(|name|)
    ensures HtmlTask(name + ".json").output == Some("dist/posts/" + name + ".html")
  {
    var s := name + ".json";
    var r := ReplaceFirst(s, ".json", ".html");
    assert r == s[..|name|] + ".html" + s[|name| + |".json"|..];
    assert s[..|name|] == name;
    assert s[|name| + |".json"|..] == [];
    assert r == name + ".html";
    assert "dist/posts/" + r == "dist/posts/" + name + ".html";
  }

  /** The summary `build` prints: how many tasks fulfilled, how many were
      rejected. */
  function Tally(results: seq<Settlement>): (r: (nat, nat))
  {
    (|Filter(results, (s: Settlement) => s.Resolved?)|, |Filter(results, (s: Settlement) => s.Rejected?)|)
  }

  /** Every settled task is counted once, as a success or a failure. */
  lemma {:induction false} TallyTotal(results: seq<Settlement>)
    ensures Tally(results).0 + Tally(results).1 == |results|
  {
    if results != [] {
      TallyTotal(results[1..]);
    }
  }
}
