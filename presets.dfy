/** The seven ffmpeg argument vectors of `presets.js`, one per preset
    name, each built from the source and output file names. */
module Presets {
  import opened Wrappers

  datatype Preset = HighQuality | Quality | Balanced | Speed | Fast | Am | Tiny

  /** The property name of each preset in the exported object. */
  function Key(p: Preset): string
  {
    match p
    case HighQuality => "highQuality"
    case Quality => "quality"
    case Balanced => "balanced"
    case Speed => "speed"
    case Fast => "fast"
    case Am => "am"
    case Tiny => "tiny"
  }

  /** `Object.keys(presets)`, in declaration order. */
  const KEYS: seq<string> := ["highQuality", "quality", "balanced", "speed", "fast", "am", "tiny"]

  /** `presets[k]`: the preset whose key is `k`, if any. */
  function Lookup(k: string): (r: Option<Preset>)
    ensures r.Some? <==> k in KEYS
    ensures r.Some? ==> Key(r.value) == k
  {
    if k == "highQuality" then Some(HighQuality)
    else if k == "quality" then Some(Quality)
    else if k == "balanced" then Some(Balanced)
    else if k == "speed" then Some(Speed)
    else if k == "fast" then Some(Fast)
    else if k == "am" then Some(Am)
    else if k == "tiny" then Some(Tiny)
    else None
  }

  /** Every preset is found under its own key, and the keys are exactly
      `KEYS`. */
  lemma KeyRoundTrip(p: Preset)
    ensures Lookup(Key(p)) == Some(p)
    ensures Key(p) in KEYS
  {
  }

  /** The encoder settings of each preset: everything between the input
      file and the forced overwrite of the output. */
  function Settings(p: Preset): seq<string>
  {
    match p
    case HighQuality => [
      "-c:a", "libmp3lame",
      "-q:a", "5",
      "-ar", "48000",
      "-af", "aresample=resampler=soxr:precision=33:dither_method=triangular"]
    case Quality => [
      "-c:a", "libmp3lame",
      "-q:a", "6",
      "-b:a", "192k",
      "-ar", "44100",
      "-af", "aresample=resampler=soxr:precision=28:dither_method=triangular"]
    case Balanced => [
      "-c:a", "libmp3lame",
      "-q:a", "7",
      "-ar", "44100",
      "-af", "aresample=resampler=soxr:precision=24"]
    case Speed => [
      "-c:a", "libmp3lame",
      "-q:a", "7",
      "-b:a", "128k",
      "-ar", "44100",
      "-af", "aresample=resampler=soxr:precision=20"]
    case Fast => [
      "-c:a", "libmp3lame",
      "-q:a", "8",
      "-b:a", "96k",
      "-ar", "22050",
      "-af", "aresample=resampler=soxr"]
    case Am => [
      "-c:a", "libmp3lame",
      "-q:a", "9",
      "-b:a", "32k",
      "-ar", "22050",
      "-ac", "1",
      "-af", "highpass=f=300,lowpass=f=3000,aresample=resampler=soxr"]
    case Tiny => [
      "-c:a", "libmp3lame",
      "-q:a", "9",
      "-b:a", "22k",
      "-ar", "8000",
      "-ac", "1",
      "-af", "highpass=f=300,lowpass=f=3000,aresample=resampler=soxr"]
  }

  /** The argument vector `presets[p](src, out)`: quiet logging, the
      input, the preset's settings, then the output, overwritten. */
  function Args(p: Preset, src: string, out: string): (r: seq<string>)
    ensures |r| == |Settings(p)| + 7
    ensures r[..5] == ["-hide_banner", "-loglevel", "error", "-i", src]
    ensures r[5..|r| - 2] == Settings(p)
    ensures r[|r| - 2..] == ["-y", out]
  {
    ["-hide_banner", "-loglevel", "error", "-i", src] + Settings(p) + ["-y", out]
  }

  /** The VBR quality level of each preset. */
  function VbrQuality(p: Preset): string
  {
    match p
    case HighQuality => "5"
    case Quality => "6"
    case Balanced | Speed => "7"
    case Fast => "8"
    case Am | Tiny => "9"
  }

  /** The bitrate cap, absent for `highQuality` and `balanced`. */
  function Bitrate(p: Preset): Option<string>
  {
    match p
    case HighQuality | Balanced => None
    case Quality => Some("192k")
    case Speed => Some("128k")
    case Fast => Some("96k")
    case Am => Some("32k")
    case Tiny => Some("22k")
  }

  function SampleRate(p: Preset): string
  {
    match p
    case HighQuality => "48000"
    case Quality | Balanced | Speed => "44100"
    case Fast | Am => "22050"
    case Tiny => "8000"
  }

  /** Only the two speech presets downmix to mono. */
  predicate Mono(p: Preset)
  {
    p == Am || p == Tiny
  }

  /** The settings of a preset as a layout of independent choices: the
      codec and VBR level, an optional bitrate cap, the sample rate, an
      optional mono downmix and the audio filter chain. */
  function Layout(p: Preset, filter: string): seq<string>
  {
    ["-c:a", "libmp3lame", "-q:a", VbrQuality(p)]
    + (if Bitrate(p).Some? then ["-b:a", Bitrate(p).value] else [])
    + ["-ar", SampleRate(p)]
    + (if Mono(p) then ["-ac", "1"] else [])
    + ["-af", filter]
  }

  /** The audio filter chain of each preset, the last of its settings. */
  function AudioFilter(p: Preset): string
  {
    match p
    case HighQuality => "aresample=resampler=soxr:precision=33:dither_method=triangular"
    case Quality => "aresample=resampler=soxr:precision=28:dither_method=triangular"
    case Balanced => "aresample=resampler=soxr:precision=24"
    case Speed => "aresample=resampler=soxr:precision=20"
    case Fast => "aresample=resampler=soxr"
    case Am | Tiny => "highpass=f=300,lowpass=f=3000,aresample=resampler=soxr"
  }

  /** The layout written out for each combination of bitrate cap and
      downmix that the presets use. */
  lemma LayoutShape(p: Preset, f: string)
    ensures Bitrate(p).None? && !Mono(p) ==>
      Layout(p, f) == ["-c:a", "libmp3lame", "-q:a", VbrQuality(p), "-ar", SampleRate(p), "-af", f]
    ensures Bitrate(p).Some? && !Mono(p) ==>
      Layout(p, f) == ["-c:a", "libmp3lame", "-q:a", VbrQuality(p), "-b:a", Bitrate(p).value,
                       "-ar", SampleRate(p), "-af", f]
    ensures Bitrate(p).Some? && Mono(p) ==>
      Layout(p, f) == ["-c:a", "libmp3lame", "-q:a", VbrQuality(p), "-b:a", Bitrate(p).value,
                       "-ar", SampleRate(p), "-ac", "1", "-af", f]
  {
  }

  /** Every preset's literal settings follow the layout, with its filter
      chain as the last argument. */
  lemma SettingsLayout(p: Preset)
    ensures Settings(p) == Layout(p, AudioFilter(p))
    ensures Settings(p)[|Settings(p)| - 1] == AudioFilter(p)
  {
    LayoutShape(p, AudioFilter(p));
  }
}
