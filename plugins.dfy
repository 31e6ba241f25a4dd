/** The copy plugins: the `Middleware` base class and its four
    subclasses `Remaining`, `Mp3`, `Avif` and `Markdown`. A plugin holds
    only the options fixed by its constructor, so it is a value here; the
    subclass is the constructor of `Plugin`. What a plugin's `execute`
    does to the outside world is a log of `Action`s, and what the outside
    world answers is an `Outcome` passed in. */
module Plugins {
  import opened Wrappers
  import opened Strings
  import opened Seqs
  import Paths
  import opened Presets

  /** An option value as a constructor's caller may pass it. */
  datatype Value = Str(s: string) | Num(n: int) | Undefined

  /** A plain options object. */
  type Options = map<string, Value>

  /** Template-literal rendering `${v}`. */
  function Text(v: Value): string
  {
    match v
    case Str(s) => s
    case Num(n) => IntToString(n)
    case Undefined => "undefined"
  }

  /** Property read: a missing property is `undefined`. */
  function Get(o: Options, k: string): Value
  {
    if k in o then o[k] else Undefined
  }

  /** `{ ...defaults, ...configuration }`; spreading `undefined` adds
      nothing. */
  function Spread(defaults: Options, configuration: Option<Options>): (r: Options)
    ensures r.Keys == defaults.Keys + (if configuration.Some? then configuration.value.Keys else {})
    ensures forall k :: k in r ==> r[k] == (if configuration.Some? && k in configuration.value then configuration.value[k] else defaults[k])
  {
    match configuration
    case None => defaults
    case Some(c) => defaults + c
  }

  datatype Plugin =
    | Base(options: Option<Options>)
    | Remaining
    | Mp3(mp3Options: Options, preset: Preset)
    | Avif(avifOptions: Options)
    | Markdown(markdownOptions: Option<Options>)

  /** `this.constructor.name` */
  function Name(p: Plugin): string
  {
    match p
    case Base(_) => "Middleware"
    case Remaining => "Remaining"
    case Mp3(_, _) => "Mp3"
    case Avif(_) => "Avif"
    case Markdown(_) => "Markdown"
  }

  const MP3_DEFAULTS: Options := map["preset" := Str("balanced")]

  const AVIF_DEFAULTS: Options :=
    map["width" := Num(1024), "height" := Num(1024), "quality" := Num(80), "effort" := Num(4)]

  /** The message `new Mp3` throws for a preset name with no preset. */
  function UnknownPreset(name: string): string
  {
    "Unknown preset: " + name + ". Available: " + Join(KEYS, ", ")
  }

  /** `new Mp3(configuration)`: merges the configuration over the default
      preset `balanced` and refuses a preset name that `presets` lacks. */
  function NewMp3(configuration: Option<Options>): (r: Result<Plugin, string>)
    ensures var options := Spread(MP3_DEFAULTS, configuration);
      var name := Text(options["preset"]);
      && (r.Ok? <==> name in KEYS)
      && (r.Ok? ==> r.value.Mp3? && r.value.mp3Options == options && Key(r.value.preset) == name)
      && (r.Err? ==> r.error == UnknownPreset(name))
  {
    var options := Spread(MP3_DEFAULTS, configuration);
    match Lookup(Text(options["preset"]))
    case None => Err(UnknownPreset(Text(options["preset"])))
    case Some(p) => Ok(Mp3(options, p))
  }

  /** Without a preset in the configuration the plugin encodes with
      `balanced`; a preset given explicitly as `undefined` is refused,
      since the spread copies the `undefined` over the default. */
  lemma Mp3PresetDefault(configuration: Options)
    ensures "preset" !in configuration ==> NewMp3(Some(configuration)).Ok? && NewMp3(Some(configuration)).value.preset == Balanced
    ensures NewMp3(None) == Ok(Mp3(MP3_DEFAULTS, Balanced))
    ensures Get(configuration, "preset") == Undefined && "preset" in configuration ==>
      NewMp3(Some(configuration)) == Err(UnknownPreset("undefined"))
  {
    if "preset" !in configuration {
      assert Spread(MP3_DEFAULTS, Some(configuration))["preset"] == Str("balanced");
    }
  }

  /** `new Avif(configuration)` */
  function NewAvif(configuration: Option<Options>): (r: Plugin)
    ensures r.Avif? && r.avifOptions.Keys >= AVIF_DEFAULTS.Keys
    ensures forall k :: k in AVIF_DEFAULTS ==>
      Get(r.avifOptions, k) == (if configuration.Some? && k in configuration.value then configuration.value[k] else AVIF_DEFAULTS[k])
  {
    Avif(Spread(AVIF_DEFAULTS, configuration))
  }

  const AUDIO_EXTENSIONS: seq<string> := [".mp3", ".wav", ".ogg", ".flac", ".m4a"]
  const IMAGE_EXTENSIONS: seq<string> := [".jpg", ".png"]

  predicate EndsWithAny(s: string, extensions: seq<string>)
  {
    exists e :: e in extensions && EndsWith(s, e)
  }

  /** Whether the plugin's `accepts` keeps this path: the audio and image
      plugins test the extension case-insensitively, `Markdown` tests
      ".md" case-sensitively, `Remaining` keeps everything and the base
      class nothing. */
  predicate Claims(p: Plugin, path: Paths.Path)
  {
    match p
    case Base(_) => false
    case Remaining => true
    case Mp3(_, _) => EndsWithAny(Lower(path), AUDIO_EXTENSIONS)
    case Avif(_) => EndsWithAny(Lower(path), IMAGE_EXTENSIONS)
    case Markdown(_) => EndsWith(path, ".md")
  }

  /** `plugin.accepts(paths)`: the paths the plugin claims, in their
      order, duplicates kept. */
  function Accepts(p: Plugin, paths: seq<Paths.Path>): (r: seq<Paths.Path>)
    ensures r == Filter(paths, x => Claims(p, x))
  {
    match p
    case Base(_) =>
      NoneClaimed(paths, x => Claims(p, x));
      []
    case Remaining =>
      FilterAll(paths, x => Claims(p, x));
      paths
    case _ => Filter(paths, x => Claims(p, x))
  }

  lemma {:induction false} NoneClaimed(paths: seq<Paths.Path>, f: Paths.Path -> bool)
    requires forall x :: !f(x)
    ensures Filter(paths, f) == []
  {
    if |paths| > 0 {
      NoneClaimed(paths[1..], f);
    }
  }

  lemma SuffixOfSuffix(s: string, a: string, b: string)
    requires EndsWith(s, a) && EndsWith(s, b) && |a| <= |b|
    ensures EndsWith(b, a)
  {
    assert b[|b| - |a|..] == s[|s| - |a|..];
  }

  /** No path is claimed by two of the transcoding plugins. */
  lemma ClaimsDisjoint(path: Paths.Path, mp3: Plugin, avif: Plugin, md: Plugin)
    requires mp3.Mp3? && avif.Avif? && md.Markdown?
    ensures !(Claims(mp3, path) && Claims(avif, path))
    ensures !(Claims(mp3, path) && Claims(md, path))
    ensures !(Claims(avif, path) && Claims(md, path))
  {
    if Claims(md, path) {
      MarkdownTail(path);
      TailNotAny(Lower(path), AUDIO_EXTENSIONS);
      TailNotAny(Lower(path), IMAGE_EXTENSIONS);
    }
    if Claims(mp3, path) && Claims(avif, path) {
      AudioNotImage(Lower(path));
    }
  }

  /** A Markdown path ends in "md", in lower case too. */
  lemma MarkdownTail(path: Paths.Path)
    requires EndsWith(path, ".md")
    ensures var l := Lower(path); |l| >= 2 && l[|l| - 2] == 'm' && l[|l| - 1] == 'd'
  {
    assert path[|path| - 2] == 'm' && path[|path| - 1] == 'd';
  }

  /** No audio or image extension ends in "md". */
  lemma TailNotAny(l: string, extensions: seq<string>)
    requires extensions == AUDIO_EXTENSIONS || extensions == IMAGE_EXTENSIONS
    requires |l| >= 2 && l[|l| - 2] == 'm' && l[|l| - 1] == 'd'
    ensures !EndsWithAny(l, extensions)
  {
  }

  /** No text ends with both an audio and an image extension. */
  lemma AudioNotImage(l: string)
    ensures !(EndsWithAny(l, AUDIO_EXTENSIONS) && EndsWithAny(l, IMAGE_EXTENSIONS))
  {
    if EndsWithAny(l, AUDIO_EXTENSIONS) && EndsWithAny(l, IMAGE_EXTENSIONS) {
      var a :| a in AUDIO_EXTENSIONS && EndsWith(l, a);
      var i :| i in IMAGE_EXTENSIONS && EndsWith(l, i);
      if |a| <= |i| {
        SuffixOfSuffix(l, a, i);
      } else {
        SuffixOfSuffix(l, i, a);
      }
    }
  }

  /** An effect `execute` has on the outside world. */
  datatype Action =
    | MakeDirectory(dir: Paths.Path)
    | Spawn(command: string, args: seq<string>)
    | ResizeToAvif(src: Paths.Path, dest: Paths.Path, width: Value, height: Value, quality: Value, effort: Value)
    | ReadFile(path: Paths.Path)
    | WriteFile(path: Paths.Path)

  /** What the outside world answers during one `execute`: whether the
      first file system call throws, whether the image encoder throws,
      ffmpeg's exit code (`None` for a process killed by a signal, whose
      code is `null`) and its standard error, and the size of the mp3 it
      left behind, `None` when there is none. */
  datatype Outcome = Outcome(ioFails: bool, encodeFails: bool, exitCode: Option<int>, stderr: string, outputSize: Option<nat>)

  /** Why a copy step stopped. */
  datatype Failure = StatFailed(path: Paths.Path) | IoFailed(path: Paths.Path) | Thrown(message: string)

  datatype Execution = Execution(actions: seq<Action>, error: Option<Failure>)

  /** The message `transmute` throws for a non-zero exit code. */
  function ExitMessage(code: Option<int>, stderr: string): string
  {
    "FFmpeg exited with code " + (if code.Some? then IntToString(code.value) else "null")
    + (if stderr != "" then ": " + stderr else "")
  }

  /** `verify`: the output must exist and hold at least 1000 bytes. */
  function VerifyError(dest: Paths.Path, size: Option<nat>): (r: Option<string>)
    ensures r.None? <==> size.Some? && size.value >= 1000
  {
    if size.None? then Some("Output file not created: " + dest)
    else if size.value < 1000 then Some("Output file suspiciously small (" + NatToString(size.value) + " bytes)")
    else None
  }

  /** The file a transcoding plugin writes: the source's stem with the
      new extension, inside `destDir`; the `destFile` it is given is
      ignored. */
  function Output(destDir: Paths.Path, src: Paths.Path, ext: string): Paths.Path
  {
    Paths.Join(destDir, Paths.Stem(src) + ext)
  }

  /** `plugin.execute(srcFile, destDir, destFile)`. The base class and
      `Remaining` only log (the latter returns before its copy). */
  function Execute(p: Plugin, src: Paths.Path, destDir: Paths.Path, destFile: Paths.Path, o: Outcome): Execution
  {
    match p
    case Base(_) => Execution([], None)
    case Remaining => Execution([], None)
    case Mp3(_, preset) =>
      var out := Output(destDir, src, ".mp3");
      if o.ioFails then Execution([], Some(IoFailed(destDir)))
      else
        var run := [MakeDirectory(destDir), Spawn("ffmpeg", Args(preset, src, out))];
        if o.exitCode != Some(0) then Execution(run, Some(Thrown(ExitMessage(o.exitCode, o.stderr))))
        else if VerifyError(out, o.outputSize).Some? then Execution(run, Some(Thrown(VerifyError(out, o.outputSize).value)))
        else Execution(run, None)
    case Avif(options) =>
      var out := Output(destDir, src, ".avif");
      if o.ioFails then Execution([], Some(IoFailed(destDir)))
      else
        var run := [MakeDirectory(destDir),
          ResizeToAvif(src, out, Get(options, "width"), Get(options, "height"), Get(options, "quality"), Get(options, "effort"))];
        Execution(run, if o.encodeFails then Some(IoFailed(out)) else None)
    case Markdown(_) =>
      if o.ioFails then Execution([], Some(IoFailed(src)))
      else Execution([ReadFile(src), MakeDirectory(destDir), WriteFile(Paths.Join(destDir, "index.html"))], None)
  }

  /** Only the three transcoding plugins can fail, and each fails exactly
      when the outside world lets it down: for `Mp3` a failed directory
      creation, a non-zero or missing exit code, or a missing or
      too-small output. */
  lemma ExecuteFails(p: Plugin, src: Paths.Path, destDir: Paths.Path, destFile: Paths.Path, o: Outcome)
    ensures var e := Execute(p, src, destDir, destFile, o);
      e.error.Some? <==>
        (match p
         case Base(_) => false
         case Remaining => false
         case Mp3(_, _) => o.ioFails || o.exitCode != Some(0) || o.outputSize.None? || o.outputSize.value < 1000
         case Avif(_) => o.ioFails || o.encodeFails
         case Markdown(_) => o.ioFails)
  {
  }

  /** A failed ffmpeg run reports its exit code, then its error output
      when it printed any. */
  lemma ExitMessageShape(code: int, stderr: string)
    ensures StartsWith(ExitMessage(Some(code), stderr), "FFmpeg exited with code " + IntToString(code))
    ensures stderr != "" ==> EndsWith(ExitMessage(Some(code), stderr), ": " + stderr)
    ensures stderr == "" ==> ExitMessage(Some(code), stderr) == "FFmpeg exited with code " + IntToString(code)
  {
  }

  /** A successful `Mp3` run creates `destDir` and runs ffmpeg on the
      preset's arguments, naming as output `<stem>.mp3` in `destDir`;
      `Avif` writes `<stem>.avif` there with the configured size. Where
      those outputs land is `Paths.DerivedOutput`. */
  lemma TranscodedActions(p: Plugin, src: Paths.Path, destDir: Paths.Path, destFile: Paths.Path, o: Outcome)
    requires p.Mp3? || p.Avif?
    requires Execute(p, src, destDir, destFile, o).error.None?
    ensures var e := Execute(p, src, destDir, destFile, o);
      && |e.actions| == 2
      && e.actions[0] == MakeDirectory(destDir)
      && (p.Mp3? ==> e.actions[1] == Spawn("ffmpeg", Args(p.preset, src, Output(destDir, src, ".mp3"))))
      && (p.Avif? ==> e.actions[1].ResizeToAvif? && e.actions[1].dest == Output(destDir, src, ".avif")
                      && e.actions[1].width == Get(p.avifOptions, "width"))
  {
  }

  /** `Markdown` reads the file, makes the directory, and then writes every
      page of a directory to the same `index.html`, whatever the markdown
      file is called. */
  lemma MarkdownTarget(p: Plugin, a: Paths.Path, b: Paths.Path, destDir: Paths.Path, o: Outcome)
    requires p.Markdown? && !o.ioFails
    ensures Execute(p, a, destDir, a, o).actions[..2] == [ReadFile(a), MakeDirectory(destDir)]
    ensures Execute(p, a, destDir, a, o).actions[2] == Execute(p, b, destDir, b, o).actions[2] == WriteFile(Paths.Join(destDir, "index.html"))
  {
  }
}
