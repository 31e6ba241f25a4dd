/** The pure helpers of `lib.js`: `chunk`, the duration formatter `ms`,
    the command-line parser `opt`, and the branch structure of
    `fitToKBounds`; and JavaScript's remainder operator, which the
    pagination code relies on. */
module Lib {
  import opened Wrappers
  import opened Strings
  import opened Seqs

  /** JavaScript's `%`: truncating, so the result takes the sign of the
      dividend, and differs by a multiple of the divisor from it. Where
      it parts from the Euclidean remainder: -1 % 3 is -1 in JavaScript
      and 2 in Dafny. */
  function JsRem(a: int, n: int): (r: int)
    requires n != 0
    ensures a >= 0 ==> r == a % n
    ensures a < 0 ==> -(if n > 0 then n else -n) < r <= 0
    ensures (a - r) % n == 0
  {
    RemCongruent(a, n);
    if a >= 0 then a % n else -((-a) % n)
  }

  /** Both remainders differ from the dividend by a multiple of `n`. */
  lemma RemCongruent(a: int, n: int)
    requires n != 0
    ensures (a - a % n) % n == 0
    ensures (a + (-a) % n) % n == 0
  {
    var q, q' := a / n, (-a) / n;
    assert a - a % n == q * n;
    MultipleMod(q, n);
    assert a + (-a) % n == (-q') * n;
    MultipleMod(-q', n);
  }

  /** A multiple of `n` leaves no remainder. */
  lemma MultipleMod(q: int, n: int)
    requires n != 0
    ensures (q * n) % n == 0
  {
    var m := q * n;
    var d := q - m / n;
    assert m % n == d * n;
    if d > 0 {
      if n > 0 { MulMono(d, n); } else { MulMono(d, -n); }
    } else if d < 0 {
      if n > 0 { MulMono(-d, n); } else { MulMono(-d, -n); }
    }
  }

  lemma MulMono(d: int, n: int)
    requires d >= 1 && n > 0
    ensures d * n >= n
  {
    assert d * n == (d - 1) * n + n;
    assert (d - 1) * n >= 0;
  }

  /** Quotient and remainder are the unique ones. */
  lemma DivUnique(x: int, n: int, q: int, r: int)
    requires n > 0 && 0 <= r < n && x == q * n + r
    ensures x / n == q && x % n == r
  {
    var q0, r0 := x / n, x % n;
    assert x == q0 * n + r0;
    assert (q - q0) * n == r0 - r;
    if q > q0 {
      MulMono(q - q0, n);
    } else if q < q0 {
      MulMono(q0 - q, n);
    }
  }

  /** `chunk(arr, size)`: consecutive slices of `size` elements, the last
      one possibly shorter; there are `ceil(|arr| / size)` of them. */
  function Chunk<T>(arr: seq<T>, size: int): (r: seq<seq<T>>)
    requires size > 0
    ensures |arr| == 0 ==> |r| == 0
    ensures |arr| > 0 ==> (|r| - 1) * size < |arr| <= |r| * size
    ensures forall i :: 0 <= i < |r| ==> 0 < |r[i]| <= size
    ensures forall i :: 0 <= i < |r| - 1 ==> |r[i]| == size
    decreases |arr|
  {
    if |arr| == 0 then []
    else if |arr| <= size then [arr]
    else
      var rest := Chunk(arr[size..], size);
      assert |rest| * size + size == (|rest| + 1) * size;
      [arr[..size]] + rest
  }

  /** Piece `i` is `arr.slice(i * size, i * size + size)`, as `Array.from`
      builds it. */
  lemma {:induction false} ChunkPiece<T>(arr: seq<T>, size: int, i: nat)
    requires size > 0 && i < |Chunk(arr, size)|
    ensures i * size < |arr|
    ensures Chunk(arr, size)[i] == arr[i * size .. if i * size + size <= |arr| then i * size + size else |arr|]
    decreases |arr|
  {
    if i > 0 {
      ChunkTail(arr, size, i);
      ChunkPiece(arr[size..], size, i - 1);
      PieceShift(arr, size, i - 1);
    } else {
      assert i * size == 0;
    }
  }

  lemma ChunkTail<T>(arr: seq<T>, size: int, i: nat)
    requires size > 0 && 0 < i < |Chunk(arr, size)|
    ensures |arr| > size && i - 1 < |Chunk(arr[size..], size)| && Chunk(arr, size)[i] == Chunk(arr[size..], size)[i - 1]
  {
  }

  lemma PieceShift<T>(arr: seq<T>, size: int, j: nat)
    requires size > 0 && size <= |arr| && j * size < |arr| - size
    ensures var rest := arr[size..];
      var a := j * size;
      (j + 1) * size < |arr|
      && rest[a .. if a + size <= |rest| then a + size else |rest|]
         == arr[(j + 1) * size .. if (j + 1) * size + size <= |arr| then (j + 1) * size + size else |arr|]
  {
    var rest := arr[size..];
    var a := j * size;
    assert (j + 1) * size == a + size;
    var b := if a + size <= |rest| then a + size else |rest|;
    assert rest[a..b] == arr[size + a .. size + b];
  }

  /** The pieces, put back together, are the array. */
  lemma {:induction false} ChunkFlatten<T>(arr: seq<T>, size: int)
    requires size > 0
    ensures Flatten(Chunk(arr, size)) == arr
    decreases |arr|
  {
    if 0 < |arr| <= size {
      assert Flatten([arr]) == arr + Flatten([arr][1..]);
      assert [arr][1..] == [];
    } else if |arr| > size {
      var rest := Chunk(arr[size..], size);
      ChunkFlatten(arr[size..], size);
      assert ([arr[..size]] + rest)[1..] == rest;
      assert arr[..size] + arr[size..] == arr;
    }
  }

  /** The `ms` time units, largest first: a year is 365 days, a month 30. */
  const TIME_UNITS: seq<(string, int)> := [
    ("year", 365 * 24 * 60 * 60 * 1000), ("month", 30 * 24 * 60 * 60 * 1000), ("day", 24 * 60 * 60 * 1000),
    ("hour", 60 * 60 * 1000), ("minute", 60 * 1000), ("second", 1000)]

  predicate PositiveUnits(units: seq<(string, int)>)
  {
    forall i :: 0 <= i < |units| ==> units[i].1 > 0
  }

  /** "N name", with an "s" when N > 1. */
  function Part(value: int, name: string): (r: string)
    ensures r != ""
  {
    IntToString(value) + " " + name + (if value > 1 then "s" else "")
  }

  /** The `reduce` of `ms`: for each unit, the floored quotient; a non-zero
      one is appended (after ", " unless the text is empty); the duration
      becomes the JavaScript remainder. Result: the text and what remains. */
  function MsFold(units: seq<(string, int)>, text: string, rest: int): (string, int)
    requires PositiveUnits(units)
  {
    if units == [] then (text, rest)
    else
      var (name, n) := units[0];
      var value := rest / n;
      var text' := if value != 0 then text + (if text != "" then ", " else "") + Part(value, name) else text;
      MsFold(units[1..], text', JsRem(rest, n))
  }

  /** `ms(x)`: the non-zero units, or, when none, what is left as "R ms". */
  function Ms(x: int): string
  {
    var (text, rest) := MsFold(TIME_UNITS, "", x);
    if text != "" then text else IntToString(rest) + " ms"
  }

  /** The quotient taken for each unit, in order. */
  function Values(units: seq<(string, int)>, rest: int): (r: seq<int>)
    requires PositiveUnits(units)
    ensures |r| == |units|
  {
    if units == [] then [] else [rest / units[0].1] + Values(units[1..], JsRem(rest, units[0].1))
  }

  /** What remains after the last unit. */
  function Remainder(units: seq<(string, int)>, rest: int): int
    requires PositiveUnits(units)
  {
    if units == [] then rest else Remainder(units[1..], JsRem(rest, units[0].1))
  }

  function Recompose(units: seq<(string, int)>, values: seq<int>): int
    requires |values| == |units|
  {
    if units == [] then 0 else values[0] * units[0].1 + Recompose(units[1..], values[1..])
  }

  /** The non-zero parts, in order. */
  function Parts(units: seq<(string, int)>, rest: int): (r: seq<string>)
    requires PositiveUnits(units)
    ensures forall p :: p in r ==> p != ""
  {
    if units == [] then []
    else
      var value := rest / units[0].1;
      (if value != 0 then [Part(value, units[0].0)] else []) + Parts(units[1..], JsRem(rest, units[0].1))
  }

  /** Joining two texts with ", " when both are non-empty. */
  function Comma(a: string, b: string): string
  {
    if a == "" then b else if b == "" then a else a + ", " + b
  }

  lemma CommaStep(text: string, p: string, tail: seq<string>)
    requires p != "" && forall q :: q in tail ==> q != ""
    ensures Comma(text + (if text != "" then ", " else "") + p, Join(tail, ", ")) == Comma(text, Join([p] + tail, ", "))
  {
    JoinNonEmpty(tail);
    var sep := ", ";
    var rest := Join(tail, sep);
    var whole := Join([p] + tail, sep);
    if tail == [] {
      assert whole == p;
    } else {
      assert ([p] + tail)[1..] == tail;
      assert whole == p + sep + rest && rest != "";
    }
    if text != "" {
      assert (text + sep + p) + sep + rest == text + sep + (p + sep + rest);
    }
  }

  /** The fold keeps the remainder apart from the text it builds. */
  lemma {:induction false} MsFoldParts(units: seq<(string, int)>, text: string, rest: int)
    requires PositiveUnits(units)
    ensures MsFold(units, text, rest).1 == Remainder(units, rest)
    ensures MsFold(units, text, rest).0 == Comma(text, Join(Parts(units, rest), ", "))
  {
    if units != [] {
      var n := units[0].1;
      var value := rest / n;
      var p := Part(value, units[0].0);
      var tail := Parts(units[1..], JsRem(rest, n));
      var text' := if value != 0 then text + (if text != "" then ", " else "") + p else text;
      MsFoldParts(units[1..], text', JsRem(rest, n));
      if value != 0 {
        assert Parts(units, rest) == [p] + tail;
        CommaStep(text, p, tail);
      } else {
        assert Parts(units, rest) == tail;
      }
    }
  }

  lemma {:induction false} JoinNonEmpty(ps: seq<string>)
    requires forall p :: p in ps ==> p != ""
    ensures ps != [] ==> Join(ps, ", ") != ""
  {
    if |ps| > 0 {
      assert ps[0] in ps;
    }
  }

  /** The listed quantities and what remains add up to the duration; for
      a non-negative duration the remainder is below the last unit. */
  lemma {:induction false} MsDecompose(units: seq<(string, int)>, x: int)
    requires PositiveUnits(units) && x >= 0
    ensures Recompose(units, Values(units, x)) + Remainder(units, x) == x
    ensures Remainder(units, x) >= 0
    ensures units != [] ==> Remainder(units, x) < units[|units| - 1].1
  {
    if units != [] {
      var n := units[0].1;
      DivMod(x, n);
      MsDecompose(units[1..], x % n);
      if |units| > 1 {
        assert units[1..][|units[1..]| - 1] == units[|units| - 1];
      }
    }
  }

  lemma DivMod(x: int, n: int)
    requires n > 0
    ensures (x / n) * n + x % n == x && 0 <= x % n < n
  {
  }

  /** A duration below every unit leaves every quotient zero. */
  lemma {:induction false} BelowUnits(units: seq<(string, int)>, x: int)
    requires PositiveUnits(units) && 0 <= x
    requires forall i :: 0 <= i < |units| ==> x < units[i].1
    ensures Parts(units, x) == [] && Remainder(units, x) == x
  {
    if units != [] {
      var n := units[0].1;
      assert x / n == 0 && x % n == x;
      BelowUnits(units[1..], x);
    }
  }

  /** Below a second, `ms` reports milliseconds. */
  lemma MsSmall(x: int)
    requires 0 <= x < 1000
    ensures Ms(x) == IntToString(x) + " ms"
  {
    var units := TIME_UNITS;
    MsFoldParts(units, "", x);
    assert forall i :: 0 <= i < |units| ==> 1000 <= units[i].1;
    BelowUnits(units, x);
    assert MsFold(units, "", x) == ("", x) by {
      assert Join(Parts(units, x), ", ") == "";
    }
  }

  /** From a second on, `ms` lists the non-zero units, largest first,
      joined by ", "; the sub-second remainder is dropped. */
  lemma MsLarge(x: int)
    requires x >= 1000
    ensures Ms(x) == Join(Parts(TIME_UNITS, x), ", ") && Ms(x) != ""
  {
    var units := TIME_UNITS;
    MsFoldParts(units, "", x);
    assert units[|units| - 1].1 == 1000;
    PartsNonEmpty(units, x);
    JoinNonEmpty(Parts(units, x));
  }

  /** A duration of at least the smallest unit lists some part. */
  lemma PartsNonEmpty(units: seq<(string, int)>, x: int)
    requires PositiveUnits(units) && units != [] && x >= units[|units| - 1].1
    ensures Parts(units, x) != []
  {
    MsDecompose(units, x);
    if Parts(units, x) == [] {
      PartsEmpty(units, x);
      RecomposeZero(units, Values(units, x));
      assert false;
    }
  }

  lemma {:induction false} PartsEmpty(units: seq<(string, int)>, x: int)
    requires PositiveUnits(units) && Parts(units, x) == []
    ensures forall i :: 0 <= i < |units| ==> Values(units, x)[i] == 0
  {
    if units != [] {
      PartsEmpty(units[1..], JsRem(x, units[0].1));
    }
  }

  lemma {:induction false} RecomposeZero(units: seq<(string, int)>, values: seq<int>)
    requires |values| == |units| && forall i :: 0 <= i < |values| ==> values[i] == 0
    ensures Recompose(units, values) == 0
  {
    if units != [] {
      RecomposeZero(units[1..], values[1..]);
    }
  }

  /** `opt`: the defaults, then each `--k=v` argument in turn; other
      arguments are ignored. A value is `None` where JavaScript has
      undefined. */
  function Opt(defaults: map<string, Option<string>>, args: seq<string>): map<string, Option<string>>
  {
    defaults + FromEntries(Entries(Filter(args, (a: string) => StartsWith(a, "--"))))
  }

  /** `a.substring(2).split('=')` read as an entry: the key, then the
      second piece if there is one. */
  function Entry(arg: string): (string, Option<string>)
    requires |arg| >= 2
  {
    var pieces := Split(arg[2..], '=');
    (pieces[0], if |pieces| > 1 then Some(pieces[1]) else None)
  }

  /** `.map(a => a.substring(2).split('='))` over the flags. */
  function Entries(flags: seq<string>): (r: seq<(string, Option<string>)>)
    requires forall a :: a in flags ==> StartsWith(a, "--")
    ensures |r| == |flags|
  {
    if flags == [] then []
    else
      assert flags[0] in flags && StartsWith(flags[0], "--") && |"--"| == 2;
      [Entry(flags[0])] + Entries(flags[1..])
  }

  lemma {:induction false} EntriesAppend(flags: seq<string>, a: string)
    requires forall x :: x in flags ==> StartsWith(x, "--")
    requires StartsWith(a, "--")
    ensures Entries(flags + [a]) == Entries(flags) + [Entry(a)]
  {
    if flags == [] {
      assert [] + [a] == [a];
    } else {
      assert (flags + [a])[1..] == flags[1..] + [a];
      EntriesAppend(flags[1..], a);
    }
  }

  /** `Object.fromEntries`: later entries overwrite earlier ones. */
  function FromEntries(entries: seq<(string, Option<string>)>): map<string, Option<string>>
  {
    if entries == [] then map[]
    else FromEntries(entries[..|entries| - 1])[entries[|entries| - 1].0 := entries[|entries| - 1].1]
  }

  /** Appending an argument: a non-flag changes nothing; a flag sets its
      key, over the defaults and every earlier flag. */
  lemma OptAppend(defaults: map<string, Option<string>>, args: seq<string>, a: string)
    ensures !StartsWith(a, "--") ==> Opt(defaults, args + [a]) == Opt(defaults, args)
    ensures StartsWith(a, "--") ==> Opt(defaults, args + [a]) == Opt(defaults, args)[Entry(a).0 := Entry(a).1]
  {
    var f := (a: string) => StartsWith(a, "--");
    var flags := Filter(args, f);
    FilterSnoc(args, a, f);
    if StartsWith(a, "--") {
      EntriesAppend(flags, a);
      FromEntriesSnoc(Entries(flags), Entry(a));
      MergeUpdate(defaults, FromEntries(Entries(flags)), Entry(a).0, Entry(a).1);
    } else {
      assert Filter(args + [a], f) == flags;
    }
  }

  lemma FilterSnoc(args: seq<string>, a: string, f: string -> bool)
    ensures Filter(args + [a], f) == Filter(args, f) + (if f(a) then [a] else [])
  {
    FilterAppend(args, [a], f);
    assert [a][1..] == [];
  }

  lemma FromEntriesSnoc(es: seq<(string, Option<string>)>, e: (string, Option<string>))
    ensures FromEntries(es + [e]) == FromEntries(es)[e.0 := e.1]
  {
    assert (es + [e])[..|es|] == es;
  }

  lemma MergeUpdate(d: map<string, Option<string>>, m: map<string, Option<string>>, k: string, v: Option<string>)
    ensures d + m[k := v] == (d + m)[k := v]
  {
  }

  /** `--k=v` sets k to v, `--k` sets k to undefined, and `--k=a=b` sets
      k to "a". */
  lemma OptForms(k: string, v: string, w: string)
    requires '=' !in k && '=' !in v
    ensures Entry("--" + k + "=" + v) == (k, Some(v))
    ensures Entry("--" + k) == (k, None)
    ensures Entry("--" + k + "=" + v + "=" + w) == (k, Some(v))
  {
    assert ("--" + k + "=" + v)[2..] == k + ['='] + v;
    SplitCons(k, '=', v);
    SplitFree(v, '=');
    assert ("--" + k)[2..] == k;
    SplitFree(k, '=');
    assert ("--" + k + "=" + v + "=" + w)[2..] == k + ['='] + (v + ['='] + w);
    SplitCons(k, '=', v + ['='] + w);
    SplitCons(v, '=', w);
  }

  /** The branches of `fitToKBounds(w, h, K)`: unchanged when both sides
      are within 1024·K; otherwise the longer side (the height on a tie)
      is set to 1024·K and the other is scaled. */
  datatype Fit = Unchanged(width: int, height: int) | WidthBound(width: int) | HeightBound(height: int)

  function FitToKBounds(w: int, h: int, k: int): (r: Fit)
    ensures r.Unchanged? <==> w <= 1024 * k && h <= 1024 * k
    ensures r.Unchanged? ==> r == Unchanged(w, h)
    ensures r.WidthBound? <==> (w > 1024 * k || h > 1024 * k) && w > h
    ensures r.WidthBound? ==> r.width == 1024 * k
    ensures r.HeightBound? ==> r.height == 1024 * k
  {
    if w > 1024 * k || h > 1024 * k then
      if w > h then WidthBound(1024 * k) else HeightBound(1024 * k)
    else Unchanged(w, h)
  }
}
