/** The build worker (`worker.js`): it dispatches each task to the
    handler named by its type and answers with exactly one message. The
    handlers' file reads and writes are inputs here: a handler receives
    what it would have read, and its failure, if any, as the message of
    what it threw. */
module Worker {
  import opened Wrappers
  import opened Strings
  import opened Seqs

  /** A JSON-like value in a message. */
  datatype JsVal = JStr(s: string) | JNum(n: int) | JBool(b: bool) | JUndefined

  /** A message posted back to the pool: a plain object. */
  type Message = map<string, JsVal>

  /** JavaScript truthiness of a message field. */
  predicate Truthy(v: JsVal)
  {
    match v
    case JStr(s) => s != ""
    case JNum(n) => n != 0
    case JBool(b) => b
    case JUndefined => false
  }

  function Field(m: Message, k: string): JsVal
  {
    if k in m then m[k] else JUndefined
  }

  /** A task as `gatherTasks` builds it; absent properties are `None`. */
  datatype Task = Task(kind: string, input: string, output: Option<string>, template: Option<string>,
                       quality: Option<int>, baseUrl: Option<string>)

  datatype Operation = GenerateHtml | GenerateIndex | CopyFile | OptimizeImage | GenerateRss | GenerateSitemap

  /** The `operations` table, keyed by task type. */
  function OperationFor(kind: string): (r: Option<Operation>)
    ensures r.Some? <==> kind in OPERATION_KEYS
  {
    if kind == "generate-html" then Some(GenerateHtml)
    else if kind == "generate-index" then Some(GenerateIndex)
    else if kind == "copy-file" then Some(CopyFile)
    else if kind == "optimize-image" then Some(OptimizeImage)
    else if kind == "generate-rss" then Some(GenerateRss)
    else if kind == "generate-sitemap" then Some(GenerateSitemap)
    else None
  }

  const OPERATION_KEYS: seq<string> :=
    ["generate-html", "generate-index", "copy-file", "optimize-image", "generate-rss", "generate-sitemap"]

  function OptionalText(v: Option<string>): JsVal
  {
    if v.Some? then JStr(v.value) else JUndefined
  }

  /** `{ success: true, type, output, ...result }` */
  function SuccessMessage(task: Task, result: Message): Message
  {
    map["success" := JBool(true), "type" := JStr(task.kind), "output" := OptionalText(task.output)] + result
  }

  /** `{ success: false, error: error.message, type, input }` */
  function FailureMessage(task: Task, error: string): Message
  {
    map["success" := JBool(false), "error" := JStr(error), "type" := JStr(task.kind), "input" := JStr(task.input)]
  }

  /** The message handler: an unknown type fails with "Unknown task type:
      T"; otherwise the handler's result, or the message it threw. */
  function Respond(task: Task, handle: Operation -> Result<Message, string>): Message
  {
    match OperationFor(task.kind)
    case None => FailureMessage(task, "Unknown task type: " + task.kind)
    case Some(op) =>
      match handle(op)
      case Ok(result) => SuccessMessage(task, result)
      case Err(message) => FailureMessage(task, message)
  }

  /** Every task is answered by one message that is either a success or a
      failure: a success when the type is known and its handler returns,
      carrying the type and output and then the handler's fields; a
      failure otherwise, carrying the reason, the type and the input. */
  lemma RespondShape(task: Task, handle: Operation -> Result<Message, string>)
    requires forall op, m :: handle(op) == Ok(m) ==> "success" !in m && "type" !in m && "output" !in m
    ensures var m := Respond(task, handle);
      && "success" in m && m["success"].JBool?
      && (m["success"] == JBool(true) <==> OperationFor(task.kind).Some? && handle(OperationFor(task.kind).value).Ok?)
      && m["type"] == JStr(task.kind)
      && (m["success"] == JBool(true) ==>
            m["output"] == OptionalText(task.output)
            && forall k :: k in handle(OperationFor(task.kind).value).value ==> m[k] == handle(OperationFor(task.kind).value).value[k])
      && (m["success"] == JBool(false) ==>
            m.Keys == {"success", "error", "type", "input"} && m["input"] == JStr(task.input)
            && (OperationFor(task.kind).None? ==> m["error"] == JStr("Unknown task type: " + task.kind)))
  {
  }

  /** `escapeHtml` / `escapeXml`: `&` first, then `<`, `>`, `"` and `'`,
      the last as the given entity. */
  function EscapeChain(text: string, apos: string): string
  {
    ReplaceAll(ReplaceAll(ReplaceAll(ReplaceAll(ReplaceAll(text, '&', "&amp;"), '<', "&lt;"), '>', "&gt;"), '"', "&quot;"), '\'', apos)
  }

  function EscapeHtml(text: string): string
  {
    EscapeChain(text, "&#039;")
  }

  function EscapeXml(text: string): string
  {
    EscapeChain(text, "&apos;")
  }

  /** The entity of one character; every other character stands for
      itself. */
  function Entity(c: char, apos: string): string
  {
    if c == '&' then "&amp;"
    else if c == '<' then "&lt;"
    else if c == '>' then "&gt;"
    else if c == '"' then "&quot;"
    else if c == '\'' then apos
    else [c]
  }

  /** Character-by-character escaping: the reference definition. */
  function EscapeEach(text: string, apos: string): string
  {
    if text == [] then [] else Entity(text[0], apos) + EscapeEach(text[1..], apos)
  }

  lemma EscapeChainAppend(a: string, b: string, apos: string)
    ensures EscapeChain(a + b, apos) == EscapeChain(a, apos) + EscapeChain(b, apos)
  {
    var s1a := ReplaceAll(a, '&', "&amp;");
    var s1b := ReplaceAll(b, '&', "&amp;");
    ReplaceAllAppend(a, b, '&', "&amp;");
    var s2a := ReplaceAll(s1a, '<', "&lt;");
    var s2b := ReplaceAll(s1b, '<', "&lt;");
    ReplaceAllAppend(s1a, s1b, '<', "&lt;");
    var s3a := ReplaceAll(s2a, '>', "&gt;");
    var s3b := ReplaceAll(s2b, '>', "&gt;");
    ReplaceAllAppend(s2a, s2b, '>', "&gt;");
    var s4a := ReplaceAll(s3a, '"', "&quot;");
    var s4b := ReplaceAll(s3b, '"', "&quot;");
    ReplaceAllAppend(s3a, s3b, '"', "&quot;");
    ReplaceAllAppend(s4a, s4b, '\'', apos);
  }

  lemma ReplaceAllFree(s: string, c: char, r: string)
    requires c !in s
    ensures ReplaceAll(s, c, r) == s
  {
    if s != [] {
      assert s[0] in s;
      ReplaceAllFree(s[1..], c, r);
    }
  }

  lemma ReplaceAllOne(c: char, d: char, r: string)
    ensures ReplaceAll([c], d, r) == if c == d then r else [c]
  {
    assert [c][1..] == [];
  }

  /** On one character the chain produces its entity: `&` goes first, so
      no later entity is escaped again. */
  lemma EscapeChainChar(c: char, apos: string)
    requires apos == "&#039;" || apos == "&apos;"
    ensures EscapeChain([c], apos) == Entity(c, apos)
  {
    ReplaceAllOne(c, '&', "&amp;");
    if c == '&' {
      AfterEntity("&amp;", 1, apos);
    } else {
      ReplaceAllOne(c, '<', "&lt;");
      if c == '<' {
        AfterEntity("&lt;", 2, apos);
      } else {
        ReplaceAllOne(c, '>', "&gt;");
        if c == '>' {
          AfterEntity("&gt;", 3, apos);
        } else {
          ReplaceAllOne(c, '"', "&quot;");
          if c == '"' {
            AfterEntity("&quot;", 4, apos);
          } else {
            ReplaceAllOne(c, '\'', apos);
          }
        }
      }
    }
  }

  /** An entity produced by replacement `k` of the chain passes through
      the replacements after it unchanged. */
  lemma AfterEntity(e: string, k: nat, apos: string)
    requires apos == "&#039;" || apos == "&apos;"
    requires '<' !in e && '>' !in e && '"' !in e && '\'' !in e
    ensures k <= 1 ==> ReplaceAll(e, '<', "&lt;") == e
    ensures k <= 2 ==> ReplaceAll(e, '>', "&gt;") == e
    ensures k <= 3 ==> ReplaceAll(e, '"', "&quot;") == e
    ensures ReplaceAll(e, '\'', apos) == e
  {
    ReplaceAllFree(e, '<', "&lt;");
    ReplaceAllFree(e, '>', "&gt;");
    ReplaceAllFree(e, '"', "&quot;");
    ReplaceAllFree(e, '\'', apos);
  }

  /** The replace chain escapes each character on its own, in order. */
  lemma {:induction false} EscapeIsPerCharacter(text: string, apos: string)
    requires apos == "&#039;" || apos == "&apos;"
    ensures EscapeChain(text, apos) == EscapeEach(text, apos)
  {
    if text != [] {
      assert text == [text[0]] + text[1..];
      EscapeChainAppend([text[0]], text[1..], apos);
      EscapeChainChar(text[0], apos);
      EscapeIsPerCharacter(text[1..], apos);
    } else {
      assert EscapeChain(text, apos) == [];
    }
  }

  lemma {:induction false} EscapeEachFree(text: string, apos: string)
    requires apos == "&#039;" || apos == "&apos;"
    ensures var r := EscapeEach(text, apos); '<' !in r && '>' !in r && '"' !in r && '\'' !in r
  {
    if text != [] {
      EntityFree(text[0], apos);
      EscapeEachFree(text[1..], apos);
      var e, r := Entity(text[0], apos), EscapeEach(text[1..], apos);
      assert EscapeEach(text, apos) == e + r;
      assert forall x :: x in e + r ==> x in e || x in r;
    }
  }

  /** No entity contains a character that needs escaping. */
  lemma EntityFree(c: char, apos: string)
    requires apos == "&#039;" || apos == "&apos;"
    ensures var e := Entity(c, apos); '<' !in e && '>' !in e && '"' !in e && '\'' !in e
  {
  }

  /** Escaped text contains none of `<`, `>`, `"` and `'`; HTML and XML
      escaping differ only in the apostrophe's entity. */
  lemma EscapeSafe(text: string)
    ensures '<' !in EscapeHtml(text) && '>' !in EscapeHtml(text) && '"' !in EscapeHtml(text) && '\'' !in EscapeHtml(text)
    ensures '<' !in EscapeXml(text) && '>' !in EscapeXml(text) && '"' !in EscapeXml(text) && '\'' !in EscapeXml(text)
    ensures EscapeHtml(text) == EscapeEach(text, "&#039;") && EscapeXml(text) == EscapeEach(text, "&apos;")
  {
    EscapeIsPerCharacter(text, "&#039;");
    EscapeIsPerCharacter(text, "&apos;");
    EscapeEachFree(text, "&#039;");
    EscapeEachFree(text, "&apos;");
  }

  /** Text free of the five special characters is left as it is. */
  lemma {:induction false} EscapePlain(text: string, apos: string)
    requires apos == "&#039;" || apos == "&apos;"
    requires forall i :: 0 <= i < |text| ==> text[i] !in "&<>\"'"
    ensures EscapeChain(text, apos) == text
  {
    EscapeIsPerCharacter(text, apos);
    EscapeEachPlain(text, apos);
  }

  lemma {:induction false} EscapeEachPlain(text: string, apos: string)
    requires forall i :: 0 <= i < |text| ==> text[i] !in "&<>\"'"
    ensures EscapeEach(text, apos) == text
  {
    if text != [] {
      assert text[0] !in "&<>\"'";
      EscapeEachPlain(text[1..], apos);
    }
  }

  /** The fields of a post file that `generateHTML` reads; the date is
      already rendered as `toLocaleDateString` would. */
  datatype Post = Post(title: Option<string>, content: Option<string>, author: Option<string>, date: string)

  /** `data.author || 'Anonymous'` */
  function Author(post: Post): (r: string)
    ensures r != ""
    ensures post.author.Some? && post.author.value != "" ==> r == post.author.value
  {
    if post.author.None? || post.author.value == "" then "Anonymous" else post.author.value
  }

  /** The page `generateHTML` writes: the first `{{title}}`, then the first
      `{{content}}`, `{{date}}` and `{{author}}` of what results, each
      replaced once. */
  function FillTemplate(template: string, title: string, content: string, date: string, author: string): string
  {
    Fill(template, EscapeHtml(title), content, date, EscapeHtml(author))
  }

  /** The four replacements with values already escaped. */
  function Fill(template: string, title: string, content: string, date: string, author: string): string
  {
    ReplaceFirst(ReplaceFirst(ReplaceFirst(ReplaceFirst(template,
      "{{title}}", title), "{{content}}", content), "{{date}}", date), "{{author}}", author)
  }

  /** `generateHTML`: fails like `undefined.replace` when the post has no
      title; an absent content is written as "undefined". The result
      field is the page's length. */
  function GenerateHtmlResult(template: string, post: Post): Result<Message, string>
  {
    if post.title.None? then Err("Cannot read properties of undefined (reading 'replace')")
    else
      var content := if post.content.Some? then post.content.value else "undefined";
      var html := FillTemplate(template, post.title.value, content, post.date, Author(post));
      Ok(map["bytes" := JNum(|html|)])
  }

  /** `generateHTML` on a template holding each placeholder once, in
      order: it fails exactly when the post has no title, and otherwise
      reports the length of the filled page, where a missing content reads
      "undefined" and a missing or empty author "Anonymous". */
  lemma GenerateHtmlOutcome(a0: string, a1: string, a2: string, a3: string, a4: string, post: Post)
    requires '{' !in a0 && '{' !in a1 && '{' !in a2 && '{' !in a3 && '{' !in post.date
    requires post.title.Some? ==> '{' !in post.title.value
    requires post.content.Some? ==> '{' !in post.content.value
    ensures var template := a0 + "{{title}}" + a1 + "{{content}}" + a2 + "{{date}}" + a3 + "{{author}}" + a4;
      && (GenerateHtmlResult(template, post).Err? <==> post.title.None?)
      && (post.title.Some? ==>
            var content := if post.content.Some? then post.content.value else "undefined";
            GenerateHtmlResult(template, post) == Ok(map["bytes" := JNum(
              |a0| + |EscapeHtml(post.title.value)| + |a1| + |content| + |a2| + |post.date| + |a3| + |EscapeHtml(Author(post))| + |a4|)]))
  {
    var template := a0 + "{{title}}" + a1 + "{{content}}" + a2 + "{{date}}" + a3 + "{{author}}" + a4;
    if post.title.Some? {
      var content := if post.content.Some? then post.content.value else "undefined";
      var author := Author(post);
      assert GenerateHtmlResult(template, post)
        == Ok(map["bytes" := JNum(|FillTemplate(template, post.title.value, content, post.date, author)|)]);
      FillLength(a0, a1, a2, a3, a4, post.title.value, content, post.date, author);
    }
  }

  lemma FillLength(a0: string, a1: string, a2: string, a3: string, a4: string,
                   title: string, content: string, date: string, author: string)
    requires '{' !in a0 && '{' !in a1 && '{' !in a2 && '{' !in a3
    requires '{' !in title && '{' !in content && '{' !in date
    ensures |FillTemplate(a0 + "{{title}}" + a1 + "{{content}}" + a2 + "{{date}}" + a3 + "{{author}}" + a4, title, content, date, author)|
         == |a0| + |EscapeHtml(title)| + |a1| + |content| + |a2| + |date| + |a3| + |EscapeHtml(author)| + |a4|
  {
    FillWellFormed(a0, a1, a2, a3, a4, title, content, date, author);
  }

  /** For a template holding each placeholder once, in order, with no
      other `{` and values without `{`, each placeholder is replaced by
      its value: the escaped title and author, the raw content. */
  lemma FillWellFormed(a0: string, a1: string, a2: string, a3: string, a4: string,
                       title: string, content: string, date: string, author: string)
    requires '{' !in a0 && '{' !in a1 && '{' !in a2 && '{' !in a3
    requires '{' !in title && '{' !in content && '{' !in date
    ensures FillTemplate(a0 + "{{title}}" + a1 + "{{content}}" + a2 + "{{date}}" + a3 + "{{author}}" + a4,
                         title, content, date, author)
         == a0 + EscapeHtml(title) + a1 + content + a2 + date + a3 + EscapeHtml(author) + a4
  {
    EscapeIsPerCharacter(title, "&#039;");
    EscapeEachBraceFree(title, "&#039;");
    FillInOrder(a0, a1, a2, a3, a4, EscapeHtml(title), content, date, EscapeHtml(author));
  }

  lemma FillInOrder(a0: string, a1: string, a2: string, a3: string, a4: string,
                    title: string, content: string, date: string, author: string)
    requires '{' !in a0 && '{' !in a1 && '{' !in a2 && '{' !in a3
    requires '{' !in title && '{' !in content && '{' !in date
    ensures Fill(a0 + "{{title}}" + a1 + "{{content}}" + a2 + "{{date}}" + a3 + "{{author}}" + a4,
                 title, content, date, author)
         == a0 + title + a1 + content + a2 + date + a3 + author + a4
  {
    FillChain(a0, a1, a2, a3, a4, "{{title}}", "{{content}}", "{{date}}", "{{author}}", title, content, date, author);
  }

  /** Four placeholders, each starting with `{`, replaced in turn. */
  lemma FillChain(a0: string, a1: string, a2: string, a3: string, a4: string,
                  t: string, c: string, d: string, w: string,
                  title: string, content: string, date: string, author: string)
    requires '{' !in a0 && '{' !in a1 && '{' !in a2 && '{' !in a3
    requires '{' !in title && '{' !in content && '{' !in date
    requires |t| > 0 && t[0] == '{' && |c| > 0 && c[0] == '{' && |d| > 0 && d[0] == '{' && |w| > 0 && w[0] == '{'
    ensures ReplaceFirst(ReplaceFirst(ReplaceFirst(ReplaceFirst(a0 + t + a1 + c + a2 + d + a3 + w + a4,
              t, title), c, content), d, date), w, author)
         == a0 + title + a1 + content + a2 + date + a3 + author + a4
  {
    var rest := a1 + c + a2 + d + a3 + w + a4;
    assert a0 + t + a1 + c + a2 + d + a3 + w + a4 == a0 + t + rest;
    var _ := FillStep(a0, t, rest, title);
    var p1 := a0 + title + a1;
    assert a0 + title + rest == p1 + c + a2 + d + a3 + w + a4;
    BraceFree(a0, title, a1);
    FillChain3(p1, a2, a3, a4, c, d, w, content, date, author);
    assert p1 + content + a2 + date + a3 + author + a4 == a0 + title + a1 + content + a2 + date + a3 + author + a4;
  }

  lemma FillChain3(a0: string, a1: string, a2: string, a3: string,
                   c: string, d: string, w: string, content: string, date: string, author: string)
    requires '{' !in a0 && '{' !in a1 && '{' !in a2
    requires '{' !in content && '{' !in date
    requires |c| > 0 && c[0] == '{' && |d| > 0 && d[0] == '{' && |w| > 0 && w[0] == '{'
    ensures ReplaceFirst(ReplaceFirst(ReplaceFirst(a0 + c + a1 + d + a2 + w + a3, c, content), d, date), w, author)
         == a0 + content + a1 + date + a2 + author + a3
  {
    var rest := a1 + d + a2 + w + a3;
    assert a0 + c + a1 + d + a2 + w + a3 == a0 + c + rest;
    var _ := FillStep(a0, c, rest, content);
    var p1 := a0 + content + a1;
    assert a0 + content + rest == p1 + d + a2 + w + a3;
    BraceFree(a0, content, a1);
    FillChain2(p1, a2, a3, d, w, date, author);
    assert p1 + date + a2 + author + a3 == a0 + content + a1 + date + a2 + author + a3;
  }

  lemma FillChain2(a0: string, a1: string, a2: string, d: string, w: string, date: string, author: string)
    requires '{' !in a0 && '{' !in a1 && '{' !in date
    requires |d| > 0 && d[0] == '{' && |w| > 0 && w[0] == '{'
    ensures ReplaceFirst(ReplaceFirst(a0 + d + a1 + w + a2, d, date), w, author) == a0 + date + a1 + author + a2
  {
    var rest := a1 + w + a2;
    assert a0 + d + a1 + w + a2 == a0 + d + rest;
    var _ := FillStep(a0, d, rest, date);
    var p1 := a0 + date + a1;
    assert a0 + date + rest == p1 + w + a2;
    BraceFree(a0, date, a1);
    var _ := FillStep(p1, w, a2, author);
    assert p1 + author + a2 == a0 + date + a1 + author + a2;
  }

  lemma BraceFree(x: string, y: string, z: string)
    requires '{' !in x && '{' !in y && '{' !in z
    ensures '{' !in x + y + z
  {
  }

  /** One placeholder filled: the placeholder is found right after a
      prefix without `{`. */
  lemma FillStep(a: string, p: string, b: string, r: string) returns (s: string)
    requires |p| > 0 && p[0] == '{' && '{' !in a
    ensures s == ReplaceFirst(a + p + b, p, r) && s == a + r + b
  {
    ReplaceFirstAfterFreePrefix(a, p, b, r);
    s := a + r + b;
  }

  lemma {:induction false} EscapeEachBraceFree(text: string, apos: string)
    requires apos == "&#039;" || apos == "&apos;"
    requires '{' !in text
    ensures '{' !in EscapeEach(text, apos)
  {
    if text != [] {
      assert text[0] in text;
      EscapeEachBraceFree(text[1..], apos);
    }
  }

  /** Placeholders are filled one after the other, so a title that itself
      reads `{{content}}` receives the post's content in its place, and
      the body placeholder stays unfilled. */
  lemma TitleCapturesContent(a: string, b: string, body: string)
    requires '{' !in a
    requires !Contains(a + body + b + "{{content}}", "{{date}}") && !Contains(a + body + b + "{{content}}", "{{author}}")
    ensures FillTemplate(a + "{{title}}" + b + "{{content}}", "{{content}}", body, "", "") == a + body + b + "{{content}}"
  {
    EscapePlain("{{content}}", "&#039;");
    EscapePlain("", "&#039;");
    FillCaptures(a, b, body);
  }

  lemma FillCaptures(a: string, b: string, body: string)
    requires '{' !in a
    requires !Contains(a + body + b + "{{content}}", "{{date}}") && !Contains(a + body + b + "{{content}}", "{{author}}")
    ensures Fill(a + "{{title}}" + b + "{{content}}", "{{content}}", body, "", "") == a + body + b + "{{content}}"
  {
    var tail := b + "{{content}}";
    assert a + "{{title}}" + b + "{{content}}" == a + "{{title}}" + tail;
    var s1 := FillStep(a, "{{title}}", tail, "{{content}}");
    var s2 := FillStep(a, "{{content}}", tail, body);
    var s3 := a + body + tail;
    assert s3 == a + body + b + "{{content}}";
    IndexOfIsContains(s3, "{{date}}");
    IndexOfIsContains(s3, "{{author}}");
  }

  /** The post files a listing holds: names ending in ".json". */
  function JsonFiles(listing: seq<string>): (r: seq<string>)
    ensures forall f :: f in r <==> f in listing && EndsWith(f, ".json")
  {
    Filter(listing, f => EndsWith(f, ".json"))
  }

  /** `file.replace('.json', '')`: the first ".json" removed. */
  function Slug(file: string): string
  {
    ReplaceFirst(file, ".json", "")
  }

  /** A post file whose first ".json" is its suffix has its name without
      the suffix as slug. */
  lemma SlugOfPostFile(name: string)
    requires IndexOf(name + ".json", ".json") == Some(|name|)
    ensures Slug(name + ".json") == name
  {
    assert (name + ".json")[..|name|] == name;
  }

  /** The counts the listing handlers return: one per post file, and one
      more URL in the sitemap for the home page. */
  function CountResult(op: Operation, listing: seq<string>): Message
    requires op == GenerateIndex || op == GenerateRss || op == GenerateSitemap
  {
    var n := |JsonFiles(listing)|;
    match op
    case GenerateIndex => map["postsCount" := JNum(n)]
    case GenerateRss => map["itemsCount" := JNum(n)]
    case GenerateSitemap => map["urlsCount" := JNum(n + 1)]
  }

  /** The world a worker's handlers meet: the post template and post
      data, the directory listing, the copied file's size, and the
      message of whatever would throw (a read, a parse, a write). */
  datatype HandlerWorld = HandlerWorld(template: string, post: Post, listing: seq<string>, copiedSize: nat, thrown: Option<string>)

  /** What each operation returns or throws. */
  function Handle(world: HandlerWorld, op: Operation): Result<Message, string>
  {
    if world.thrown.Some? then Err(world.thrown.value)
    else match op
      case GenerateHtml => GenerateHtmlResult(world.template, world.post)
      case GenerateIndex => Ok(CountResult(op, world.listing))
      case CopyFile => Ok(map["bytes" := JNum(world.copiedSize)])
      case OptimizeImage => Ok(map["optimized" := JBool(true)])
      case GenerateRss => Ok(CountResult(op, world.listing))
      case GenerateSitemap => Ok(CountResult(op, world.listing))
  }

  /** The three listing handlers count the same post files; the sitemap
      adds the home page. */
  lemma CountsAgree(listing: seq<string>)
    ensures CountResult(GenerateIndex, listing)["postsCount"] == CountResult(GenerateRss, listing)["itemsCount"]
    ensures CountResult(GenerateSitemap, listing)["urlsCount"].n == CountResult(GenerateIndex, listing)["postsCount"].n + 1
    ensures CountResult(GenerateIndex, listing)["postsCount"].n <= |listing|
  {
  }

  /** The worker's own handlers never set `success`, `type` or `output`,
      so the message shape of `RespondShape` holds for them. */
  lemma HandlersKeepHeader(world: HandlerWorld, op: Operation)
    ensures Handle(world, op).Ok? ==> var m := Handle(world, op).value; "success" !in m && "type" !in m && "output" !in m
    ensures Handle(world, op).Ok? ==> "error" !in Handle(world, op).value
  {
  }
}
