/**
 * Adapter information: normalising an adapter's feature set and limits to a
 * sorted list and a record of finite numbers, the name and availability
 * rules of `getAdapterInfo`, and the one-line summary.
 */
module AdapterInfo {
  import opened Wrappers
  import opened Js
  import opened Text
  import opened Seqs

  // ---------------------------------------------------------------- number conversion

  /** `10^n`. */
  function Pow10(n: nat): (p: nat)
    ensures p >= 1
  {
    if n == 0 then 1 else 10 * Pow10(n - 1)
  }

  /** The position of the first `.` in `u`, or `|u|` when there is none. */
  function DotIndex(u: string): (i: nat)
    ensures i <= |u| && '.' !in u[..i] && (i < |u| ==> u[i] == '.')
  {
    if u == [] || u[0] == '.' then 0
    else
      var i := 1 + DotIndex(u[1..]);
      assert u[..i] == [u[0]] + u[1..][..i - 1];
      i
  }

  /**
   * A decimal numeral without sign: digits, optionally a point and more
   * digits, at least one digit in all (`12`, `12.`, `.5`, `1.25`).
   */
  function Decimal(u: string): (r: Option<real>)
    ensures r.Some? ==> r.value >= 0.0
  {
    var i := DotIndex(u);
    var whole, frac := u[..i], if i < |u| then u[i + 1..] else "";
    if AllDigits(whole) && AllDigits(frac) && |whole| + |frac| >= 1 then
      Some(DigitsValue(whole) as real + DigitsValue(frac) as real / Pow10(|frac|) as real)
    else None
  }

  function Negate(n: Num): Num
  {
    match n
    case Finite(v) => Finite(-v)
    case NaN => NaN
    case PosInf => NegInf
    case NegInf => PosInf
  }

  function Unsigned(u: string): Num
  {
    if u == "Infinity" then PosInf
    else
      var d := Decimal(u);
      if d.Some? then Finite(d.value) else NaN
  }

  /** `+s` for a string: trimmed; empty is 0; an optional sign, then `Infinity` or a decimal numeral. */
  function StringToNumber(s: string): Num
  {
    var t := Trim(s);
    if t == "" then Finite(0.0)
    else if t[0] == '-' then Negate(Unsigned(t[1..]))
    else if t[0] == '+' then Unsigned(t[1..])
    else Unsigned(t)
  }

  /** Unary `+v`. */
  function ToNumber(v: Value): Num
  {
    match v
    case Undefined => NaN
    case Null => Finite(0.0)
    case Bool(b) => Finite(if b then 1.0 else 0.0)
    case Number(n) => n
    case Str(s) => StringToNumber(s)
    case Object => NaN
  }

  /** A string holding the numeral of a natural number converts back to that number. */
  lemma NumeralToNumber(n: nat)
    ensures ToNumber(Str(NatToString(n))) == Finite(n as real)
  {
    DigitsToNumber(NatToString(n));
    DigitsOfNat(n);
  }

  /** A string of decimal digits converts to its value. */
  lemma DigitsToNumber(s: string)
    requires |s| >= 1 && AllDigits(s)
    ensures StringToNumber(s) == Finite(DigitsValue(s) as real)
  {
    TrimDigits(s);
    UnsignedDigits(s);
    assert IsDigit(s[0]);
  }

  lemma UnsignedDigits(s: string)
    requires |s| >= 1 && AllDigits(s)
    ensures Unsigned(s) == Finite(DigitsValue(s) as real)
  {
    DecimalDigits(s);
    assert IsDigit(s[0]);
    assert s != "Infinity" by {
      assert "Infinity"[0] == 'I';
    }
  }

  lemma TrimDigits(s: string)
    requires |s| >= 1 && AllDigits(s)
    ensures Trim(s) == s
  {
    assert IsDigit(s[0]) && IsDigit(s[|s| - 1]);
    TrimSolid(s);
  }

  lemma DecimalDigits(s: string)
    requires |s| >= 1 && AllDigits(s)
    ensures Decimal(s) == Some(DigitsValue(s) as real)
  {
    DotIndexDigits(s);
    assert s[..|s|] == s;
    assert DigitsValue("") == 0 && Pow10(0) == 1;
  }

  lemma {:induction false} DotIndexDigits(s: string)
    requires AllDigits(s)
    ensures DotIndex(s) == |s|
  {
    if s != [] {
      assert IsDigit(s[0]);
      DotIndexDigits(s[1..]);
    }
  }

  /** Empty and blank strings convert to 0. */
  lemma BlankToNumber(blank: string)
    requires forall k | 0 <= k < |blank| :: IsSpace(blank[k])
    ensures StringToNumber(blank) == Finite(0.0)
  {
  }

  /** A bare sign is not a number. */
  lemma SignToNumber(s: string)
    requires |s| == 1 && (s[0] == '-' || s[0] == '+')
    ensures StringToNumber(s) == NaN
  {
    TrimSolid(s);
    assert s == [s[0]] + "";
    SignedToNumber(s, s[0], "");
    UnsignedEmpty();
  }

  /** A sign after trimming applies to the rest. */
  lemma SignedToNumber(s: string, sign: char, u: string)
    requires Trim(s) == [sign] + u && (sign == '-' || sign == '+')
    ensures StringToNumber(s) == if sign == '-' then Negate(Unsigned(u)) else Unsigned(u)
  {
    assert Trim(s)[0] == sign && Trim(s)[1..] == u;
  }

  /** Trimming keeps a string that neither starts nor ends with white space. */
  lemma TrimSolid(s: string)
    requires |s| >= 1 && !IsSpace(s[0]) && !IsSpace(s[|s| - 1])
    ensures Trim(s) == s
  {
    assert TrimStart(s) == s;
  }

  lemma UnsignedEmpty()
    ensures Unsigned("") == NaN
  {
    assert Decimal("") == None;
  }

  // ---------------------------------------------------------------- features

  /**
   * `features`: something with a `forEach` method (a Set, an array, a Map)
   * with the values it visits, or anything else.  An array always has
   * `forEach`, so the `Array.isArray` branch is never the one taken.
   */
  datatype FeatureSource = Iterable(values: seq<Value>) | NotIterable

  /** The strings among `vs`, in order. */
  function StringsOf(vs: seq<Value>): seq<string>
    decreases |vs|
  {
    if vs == [] then []
    else
      var last := vs[|vs| - 1];
      StringsOf(vs[..|vs| - 1]) + (if last.Str? then [last.s] else [])
  }

  /** Each string occurs among the kept features as often as it does among the values. */
  lemma {:induction false} StringsOfCount(vs: seq<Value>, s: string)
    ensures multiset(StringsOf(vs))[s] == multiset(vs)[Str(s)]
    decreases |vs|
  {
    if vs != [] {
      var init, last := vs[..|vs| - 1], vs[|vs| - 1];
      StringsOfCount(init, s);
      assert vs == init + [last];
    }
  }

  function FeatureStrings(f: FeatureSource): seq<string>
  {
    if f.Iterable? then StringsOf(f.values) else []
  }

  // ---------------------------------------------------------------- limits

  /**
   * `limits`: falsy; something with an `entries` method (a Map) with its
   * entries in order; another object with its own keys and values in order;
   * or a truthy value that is not an object.
   */
  datatype LimitSource =
    | NoLimits
    | EntryList(entries: seq<(Value, Value)>)
    | Record(fields: seq<(string, Value)>)
    | NonObject

  /** A plain object of numbers, as its entries in insertion order. */
  type Limits = seq<(string, real)>

  function KeysOf(lim: Limits): seq<string>
  {
    seq(|lim|, i requires 0 <= i < |lim| => lim[i].0)
  }

  predicate DistinctKeys(lim: Limits)
  {
    forall i, j | 0 <= i < j < |lim| :: lim[i].0 != lim[j].0
  }

  /** `lim[k]`. */
  function Lookup(lim: Limits, k: string): Option<real>
  {
    if lim == [] then None else if lim[0].0 == k then Some(lim[0].1) else Lookup(lim[1..], k)
  }

  /** `lim[k] = v`: an existing key keeps its place and takes the value, a new key goes last. */
  function Put(lim: Limits, k: string, v: real): (r: Limits)
    ensures |r| == if k in KeysOf(lim) then |lim| else |lim| + 1
    ensures forall i | 0 <= i < |lim| :: r[i].0 == lim[i].0 && (lim[i].0 != k ==> r[i].1 == lim[i].1)
    ensures k !in KeysOf(lim) ==> r[|lim|] == (k, v)
  {
    if lim == [] then [(k, v)]
    else if lim[0].0 == k then
      assert KeysOf(lim)[0] == k;
      [(k, v)] + lim[1..]
    else
      KeysOfCons(lim);
      [lim[0]] + Put(lim[1..], k, v)
  }

  lemma KeysOfCons(lim: Limits)
    requires lim != []
    ensures KeysOf(lim) == [lim[0].0] + KeysOf(lim[1..])
  {
  }

  /** After `lim[k] = v`, `k` reads `v` and every other key reads what it did. */
  lemma {:induction false} PutLookup(lim: Limits, k: string, v: real, k': string)
    ensures Lookup(Put(lim, k, v), k') == if k' == k then Some(v) else Lookup(lim, k')
  {
    if lim != [] && lim[0].0 != k {
      PutLookup(lim[1..], k, v, k');
      assert Put(lim, k, v)[1..] == Put(lim[1..], k, v);
    }
  }

  /** A record never holds a key twice. */
  lemma PutDistinct(lim: Limits, k: string, v: real)
    requires DistinctKeys(lim)
    ensures DistinctKeys(Put(lim, k, v))
  {
    var r := Put(lim, k, v);
    if k !in KeysOf(lim) {
      forall i | 0 <= i < |lim| ensures r[i].0 != k {
        assert KeysOf(lim)[i] == lim[i].0;
      }
    }
  }

  /** An entry with its value converted by unary `+`. */
  type Entry = (Value, Num)

  function Converted(es: seq<(Value, Value)>): (cs: seq<Entry>)
    ensures |cs| == |es| && forall i | 0 <= i < |es| :: cs[i] == (es[i].0, ToNumber(es[i].1))
  {
    seq(|es|, i requires 0 <= i < |es| => (es[i].0, ToNumber(es[i].1)))
  }

  /** Whether the entry `e` stores key `k`: a string key and a finite number. */
  predicate Keeps(e: Entry, k: string)
  {
    e.0 == Str(k) && e.1.Finite?
  }

  /** One step of the loop: `if (typeof k === 'string' && Number.isFinite(+v)) lim[k] = +v`. */
  function Step(lim: Limits, e: Entry): Limits
  {
    if e.0.Str? && e.1.Finite? then Put(lim, e.0.s, e.1.v) else lim
  }

  /** The record the loop builds from the converted entries, in order. */
  function Kept(es: seq<Entry>): Limits
    decreases |es|
  {
    if es == [] then [] else Step(Kept(es[..|es| - 1]), es[|es| - 1])
  }

  /** A key's value, looked up from the end: the last entry that stores it. */
  function LastKept(es: seq<Entry>, k: string): Option<real>
    decreases |es|
  {
    if es == [] then None
    else if Keeps(es[|es| - 1], k) then Some(es[|es| - 1].1.v)
    else LastKept(es[..|es| - 1], k)
  }

  /** The lookup from the end finds nothing exactly when no entry stores the key, else the last one that does. */
  lemma {:induction false} LastKeptMeaning(es: seq<Entry>, k: string)
    ensures var r := LastKept(es, k);
      && (r.None? <==> forall i | 0 <= i < |es| :: !Keeps(es[i], k))
      && (r.Some? ==> exists i | 0 <= i < |es| ::
            && Keeps(es[i], k) && es[i].1 == Finite(r.value)
            && forall j | i < j < |es| :: !Keeps(es[j], k))
    decreases |es|
  {
    if es != [] {
      var n := |es| - 1;
      var init := es[..n];
      if Keeps(es[n], k) {
        assert LastKept(es, k) == Some(es[n].1.v);
      } else {
        LastKeptMeaning(init, k);
        assert forall i | 0 <= i < n :: init[i] == es[i];
        var r := LastKept(init, k);
        assert LastKept(es, k) == r;
        if r.Some? {
          var i :| 0 <= i < n && Keeps(init[i], k) && init[i].1 == Finite(r.value)
                   && forall j | i < j < n :: !Keeps(init[j], k);
          assert forall j | i < j < |es| :: !Keeps(es[j], k);
        }
      }
    }
  }

  /** The record holds, for each key, the value of the last entry of that key whose value is finite. */
  lemma {:induction false} KeptLookup(es: seq<Entry>, k: string)
    ensures Lookup(Kept(es), k) == LastKept(es, k)
    decreases |es|
  {
    if es != [] {
      var init, last := es[..|es| - 1], es[|es| - 1];
      KeptLookup(init, k);
      if last.0.Str? && last.1.Finite? {
        PutLookup(Kept(init), last.0.s, last.1.v, k);
      }
    }
  }

  lemma {:induction false} KeptDistinct(es: seq<Entry>)
    ensures DistinctKeys(Kept(es))
    decreases |es|
  {
    if es != [] {
      var init, last := es[..|es| - 1], es[|es| - 1];
      KeptDistinct(init);
      if last.0.Str? && last.1.Finite? {
        PutDistinct(Kept(init), last.0.s, last.1.v);
      }
    }
  }

  /** An object's own keys and values, as entries with string keys. */
  function AsEntries(fields: seq<(string, Value)>): (es: seq<(Value, Value)>)
    ensures |es| == |fields| && forall i | 0 <= i < |fields| :: es[i] == (Str(fields[i].0), fields[i].1)
  {
    seq(|fields|, i requires 0 <= i < |fields| => (Str(fields[i].0), fields[i].1))
  }

  /** The entries a limit source offers the loop; none when it is falsy or not an object. */
  function LimitEntries(l: LimitSource): seq<(Value, Value)>
  {
    match l
    case EntryList(es) => es
    case Record(fields) => AsEntries(fields)
    case _ => []
  }

  function KeptLimits(l: LimitSource): Limits
  {
    Kept(Converted(LimitEntries(l)))
  }

  /**
   * The limits kept: no key twice, and each key with the finite value of the
   * last entry that gives it one.  Keys that are not strings, and values that
   * do not convert to a finite number, are dropped.
   */
  lemma LimitsKept(l: LimitSource, k: string)
    ensures DistinctKeys(KeptLimits(l))
    ensures var es, r := LimitEntries(l), Lookup(KeptLimits(l), k);
      && (r.None? <==> forall i | 0 <= i < |es| :: !(es[i].0 == Str(k) && ToNumber(es[i].1).Finite?))
      && (r.Some? ==> exists i | 0 <= i < |es| ::
            && es[i].0 == Str(k) && ToNumber(es[i].1) == Finite(r.value)
            && forall j | i < j < |es| :: !(es[j].0 == Str(k) && ToNumber(es[j].1).Finite?))
  {
    var cs := Converted(LimitEntries(l));
    KeptDistinct(cs);
    KeptLookup(cs, k);
    LastKeptMeaning(cs, k);
    assert forall i | 0 <= i < |cs| :: Keeps(cs[i], k) == (LimitEntries(l)[i].0 == Str(k) && ToNumber(LimitEntries(l)[i].1).Finite?);
  }

  /** `normalizeFeaturesAndLimits(features, limits)`. */
  method NormalizeFeaturesAndLimits(features: FeatureSource, limits: LimitSource)
    returns (feat: seq<string>, lim: Limits)
    ensures feat == Sort(FeatureStrings(features))
    ensures Sorted(feat)
    ensures features.Iterable? ==> forall s :: multiset(feat)[s] == multiset(features.values)[Str(s)]
    ensures features.NotIterable? ==> feat == []
    ensures lim == KeptLimits(limits) && DistinctKeys(lim)
  {
    feat := [];
    if features.Iterable? {
      var vs := features.values;
      for i := 0 to |vs|
        invariant feat == StringsOf(vs[..i])
      {
        assert vs[..i + 1][..i] == vs[..i];
        if vs[i].Str? {
          feat := feat + [vs[i].s];
        }
      }
      assert vs[..|vs|] == vs;
    }
    SortCorrect(feat);
    feat := Sort(feat);
    if features.Iterable? {
      forall s ensures multiset(feat)[s] == multiset(features.values)[Str(s)] {
        StringsOfCount(features.values, s);
      }
    }

    lim := [];
    if limits.EntryList? || limits.Record? {
      var es := LimitEntries(limits);
      ghost var cs := Converted(es);
      for i := 0 to |es|
        invariant lim == Kept(cs[..i])
      {
        assert cs[..i + 1][..i] == cs[..i];
        var (k, v) := es[i];
        var n := ToNumber(v);
        assert cs[..i + 1][i] == (k, n);
        if k.Str? && n.Finite? {
          lim := Put(lim, k.s, n.v);
        }
      }
      assert cs[..|es|] == cs;
    }
    KeptDistinct(Converted(LimitEntries(limits)));
  }

  // ---------------------------------------------------------------- getAdapterInfo

  const UNKNOWN_GPU := "Unknown GPU"

  /** A GPU root, `env.gpu` or `navigator.gpu`: whether its `requestAdapter` is a function. */
  datatype GpuRoot = GpuRoot(hasRequestAdapter: bool)

  /** `adapter.requestAdapterInfo`: missing, throwing, or resolving to an object's `description`. */
  datatype InfoCall = NoInfoMethod | InfoThrows | InfoResolved(description: Value)

  /** What `await gpu.requestAdapter({})` resolved to, when it is truthy. */
  datatype Adapter = Adapter(features: FeatureSource, limits: LimitSource, info: InfoCall)

  datatype AdapterError = NotAvailable   // Error "WebGPU not available: no gpu.requestAdapter"

  datatype BasicAdapterInfo = BasicAdapterInfo(name: string, features: seq<string>, limits: Limits)

  /** `(env && env.gpu) || navigator.gpu`; `None` stands for a falsy root. */
  function FindGpu(envGpu: Option<GpuRoot>, navigatorGpu: Option<GpuRoot>): Option<GpuRoot>
  {
    if envGpu.Some? then envGpu else navigatorGpu
  }

  /** WebGPU is available when the root looked at first has `requestAdapter`: a truthy `env.gpu` without it has no fallback. */
  predicate Available(envGpu: Option<GpuRoot>, navigatorGpu: Option<GpuRoot>)
  {
    || (envGpu.Some? && envGpu.value.hasRequestAdapter)
    || (envGpu.None? && navigatorGpu.Some? && navigatorGpu.value.hasRequestAdapter)
  }

  /** The description, when `requestAdapterInfo` resolves to a non-empty string one; else 'Unknown GPU'. */
  function AdapterName(adapter: Option<Adapter>): (name: string)
    ensures name != []
    ensures name == UNKNOWN_GPU || (adapter.Some? && adapter.value.info == InfoResolved(Str(name)))
    ensures (adapter.Some? && adapter.value.info.InfoResolved? && adapter.value.info.description.Str?
             && adapter.value.info.description.s != []) ==> name == adapter.value.info.description.s
    ensures adapter.None? || !adapter.value.info.InfoResolved? ==> name == UNKNOWN_GPU
  {
    if adapter.Some? && adapter.value.info.InfoResolved?
       && adapter.value.info.description.Str? && adapter.value.info.description.s != []
    then adapter.value.info.description.s
    else UNKNOWN_GPU
  }

  /**
   * `getAdapterInfo(env)`: the awaited results of `requestAdapter` and
   * `requestAdapterInfo` are given as `adapter`.
   */
  method GetAdapterInfo(envGpu: Option<GpuRoot>, navigatorGpu: Option<GpuRoot>, adapter: Option<Adapter>)
    returns (r: Result<BasicAdapterInfo, AdapterError>)
    ensures r.Err? <==> !Available(envGpu, navigatorGpu)
    ensures r.Err? ==> r.error == NotAvailable
    ensures r.Ok? ==> && r.value.name == AdapterName(adapter)
                      && r.value.features == Sort(FeatureStrings(if adapter.Some? then adapter.value.features else NotIterable))
                      && r.value.limits == KeptLimits(if adapter.Some? then adapter.value.limits else NoLimits)
                      && Sorted(r.value.features) && DistinctKeys(r.value.limits)
  {
    var gpu := FindGpu(envGpu, navigatorGpu);
    if gpu.None? || !gpu.value.hasRequestAdapter {
      return Err(NotAvailable);
    }
    var name := UNKNOWN_GPU;
    if adapter.Some? && !adapter.value.info.NoInfoMethod? {
      match adapter.value.info
      case InfoThrows =>
      case InfoResolved(d) =>
        if d.Str? && d.s != [] {
          name := d.s;
        }
    }
    var feat, lim;
    if adapter.Some? {
      feat, lim := NormalizeFeaturesAndLimits(adapter.value.features, adapter.value.limits);
    } else {
      feat, lim := NormalizeFeaturesAndLimits(NotIterable, NoLimits);
    }
    return Ok(BasicAdapterInfo(name, feat, lim));
  }

  // ---------------------------------------------------------------- summary

  /** What the summary reads: limit values are integers here. */
  datatype SummaryInfo = SummaryInfo(name: string, features: seq<string>, limits: seq<(string, int)>)

  const DASH := " \U{2014} "

  function FeaturesPart(features: seq<string>): string
  {
    if |features| > 0 then "features: " + Join(features, ", ") else "features: (none)"
  }

  /** `${k}: ${v}`. */
  function LimitText(e: (string, int)): string
  {
    e.0 + ": " + IntToString(e.1)
  }

  function LimitTexts(ls: seq<(string, int)>): (ts: seq<string>)
    ensures |ts| == |ls|
  {
    seq(|ls|, i requires 0 <= i < |ls| => LimitText(ls[i]))
  }

  function LimitsPart(ls: seq<(string, int)>): string
  {
    if |ls| > 0 then "limits: " + Join(LimitTexts(ls), ", ") else "limits: (none)"
  }

  /** `summarizeAdapterInfo(info)`. */
  function SummarizeAdapterInfo(info: SummaryInfo): string
  {
    info.name + DASH + FeaturesPart(info.features) + "; " + LimitsPart(info.limits)
  }

  /** The summary starts with the name, then the dash. */
  lemma SummaryStartsWithName(info: SummaryInfo)
    ensures var s := SummarizeAdapterInfo(info);
      |info.name| + 3 <= |s| && s[..|info.name|] == info.name && s[|info.name|..|info.name| + 3] == DASH
  {
    var s := SummarizeAdapterInfo(info);
    var rest := FeaturesPart(info.features) + "; " + LimitsPart(info.limits);
    assert s == info.name + (DASH + rest);
  }

  /** Every feature occurs in the summary, after `features: ` and its predecessors with their `, `. */
  lemma SummaryHasFeature(info: SummaryInfo, i: nat)
    requires i < |info.features|
    ensures var s, f := SummarizeAdapterInfo(info), info.features[i];
      var off := |info.name| + 13 + TotalLength(info.features[..i]) + 2 * i;
      off + |f| <= |s| && s[off..off + |f|] == f
  {
    var j := Join(info.features, ", ");
    JoinHasItems(info.features, ", ", i);
    var pre := info.name + DASH + "features: ";
    var post := "; " + LimitsPart(info.limits);
    assert SummarizeAdapterInfo(info) == pre + j + post;
    assert |pre| == |info.name| + 13;
    SliceBetween(pre, j, post, TotalLength(info.features[..i]) + 2 * i, |info.features[i]|);
  }

  /** Every limit occurs in the summary as `k: v`, after `limits: ` and its predecessors with their `, `. */
  lemma SummaryHasLimit(info: SummaryInfo, i: nat)
    requires i < |info.limits|
    ensures var s, t := SummarizeAdapterInfo(info), LimitText(info.limits[i]);
      var off := |info.name| + 3 + |FeaturesPart(info.features)| + 10 + TotalLength(LimitTexts(info.limits)[..i]) + 2 * i;
      off + |t| <= |s| && s[off..off + |t|] == t
  {
    var ts := LimitTexts(info.limits);
    var j := Join(ts, ", ");
    JoinHasItems(ts, ", ", i);
    var pre := info.name + DASH + FeaturesPart(info.features) + "; " + "limits: ";
    assert LimitsPart(info.limits) == "limits: " + j;
    assert SummarizeAdapterInfo(info) == pre + j + [];
    assert |pre| == |info.name| + 3 + |FeaturesPart(info.features)| + 10;
    SliceBetween(pre, j, [], TotalLength(ts[..i]) + 2 * i, |ts[i]|);
  }

  /** An empty part reads `(none)`. */
  lemma SummaryNone(name: string)
    ensures SummarizeAdapterInfo(SummaryInfo(name, [], [])) == name + DASH + "features: (none)" + "; " + "limits: (none)"
  {
  }

  /** One feature and one limit: `GPU — features: a; limits: maxBindGroups: 4` with those words. */
  lemma SummaryOne(name: string, f: string, k: string, v: nat)
    ensures SummarizeAdapterInfo(SummaryInfo(name, [f], [(k, v)]))
            == name + DASH + "features: " + f + "; " + "limits: " + k + ": " + NatToString(v)
  {
    assert LimitTexts([(k, v)]) == [LimitText((k, v))];
  }
}
