/**
 * The headless smoke runner's pure parts: padding, the manifest entries, the
 * URLs and labels of the cases, the verdict read from a page's DOM, and the
 * width of the label column.
 */
module Smoke {
  import opened Wrappers
  import opened Js
  import opened Text

  // ---------------------------------------------------------------- padding

  function Spaces(n: nat): (r: string)
    ensures |r| == n && forall k | 0 <= k < n :: r[k] == ' '
  {
    seq(n, k requires 0 <= k < n => ' ')
  }

  /** `padEnd(s, n)`: `s`, followed by spaces up to length `n`. */
  function PadEnd(s: string, n: int): (r: string)
    ensures |r| == Max(|s|, n)
    ensures r[..|s|] == s && forall k | |s| <= k < |r| :: r[k] == ' '
  {
    if |s| >= n then s else s + Spaces(n - |s|)
  }

  // ---------------------------------------------------------------- manifest

  /** A manifest demo: its `path` (`None` when falsy) and its `backends` (`None` when not an array). */
  datatype ManifestDemo = ManifestDemo(path: Option<string>, backends: Option<seq<string>>)

  /** A case source: a path relative to `public/` and the backends to run it on. */
  datatype Entry = Entry(path: string, backends: seq<string>)

  const WEBGPU := "webgpu"
  const WEBGL2 := "webgl2"

  /** `.replace(/^\.\//, '')`: one leading `./` is removed. */
  function StripDotSlash(s: string): (r: string)
    ensures s == r || s == "./" + r
    ensures |s| >= 2 && s[0] == '.' && s[1] == '/' <==> s == "./" + r
  {
    if |s| >= 2 && s[0] == '.' && s[1] == '/' then
      assert s == "./" + s[2..];
      s[2..]
    else
      s
  }

  /** The entry `discoverFromManifest` makes of a demo. */
  function NormalizeDemo(d: ManifestDemo): (e: Entry)
    ensures var p := if d.path.Some? then d.path.value else ""; p == e.path || p == "./" + e.path
    ensures d.backends.None? ==> e.backends == [WEBGPU, WEBGL2]
    ensures d.backends.Some? ==> (|e.backends| == |d.backends.value|
              && forall i | 0 <= i < |e.backends| :: e.backends[i] == ToLowerAscii(d.backends.value[i]))
  {
    Entry(StripDotSlash(if d.path.Some? then d.path.value else ""),
          if d.backends.Some? then seq(|d.backends.value|, i requires 0 <= i < |d.backends.value| => ToLowerAscii(d.backends.value[i]))
          else [WEBGPU, WEBGL2])
  }

  /** A lower-cased backend holds no upper-case ASCII letter. */
  lemma NormalizedBackendsLower(d: ManifestDemo, i: nat, k: nat)
    requires d.backends.Some? && i < |d.backends.value| && k < |d.backends.value[i]|
    ensures var e := NormalizeDemo(d); k < |e.backends[i]| && !('A' <= e.backends[i][k] <= 'Z')
  {
  }

  // ---------------------------------------------------------------- URLs

  const HOST := "127.0.0.1"

  /** What a case is made of. */
  datatype Case = Case(labelText: string, url: string, be: string, path: string)

  /** `(e.backends && e.backends.length) ? e.backends : ['webgpu', 'webgl2']`. */
  function BackendsOf(e: Entry): (bs: seq<string>)
    ensures |bs| > 0
  {
    if |e.backends| > 0 then e.backends else [WEBGPU, WEBGL2]
  }

  /** `'&'` when the path already has a query, `'?'` otherwise. */
  function Sep(path: string): char
  {
    if '?' in path then '&' else '?'
  }

  function Query(be: string): string
  {
    "backend=" + be + "&expect=" + be + "&headless=1"
  }

  /** `http://127.0.0.1:<port>/public/<path><sep>backend=<be>&expect=<be>&headless=1`. */
  function Url(port: nat, path: string, be: string): string
  {
    "http://" + HOST + ":" + NatToString(port) + "/public/" + path + [Sep(path)] + Query(be)
  }

  /** `<be> · <path>`. */
  function Label(be: string, path: string): string
  {
    be + " \U{00B7} " + path
  }

  function CaseFor(port: nat, path: string, be: string): Case
  {
    Case(Label(be, path), Url(port, path, be), be, path)
  }

  /** The cases of one entry, one per backend, in order. */
  function EntryCases(port: nat, e: Entry): (cs: seq<Case>)
    ensures |cs| == |BackendsOf(e)|
  {
    seq(|BackendsOf(e)|, j requires 0 <= j < |BackendsOf(e)| => CaseFor(port, e.path, BackendsOf(e)[j]))
  }

  /** The cases of all entries, entry after entry. */
  function Cases(port: nat, entries: seq<Entry>): seq<Case>
    decreases |entries|
  {
    if entries == [] then []
    else Cases(port, entries[..|entries| - 1]) + EntryCases(port, entries[|entries| - 1])
  }

  /** How many cases the entries before the `i`-th make. */
  function CaseCount(entries: seq<Entry>): nat
    decreases |entries|
  {
    if entries == [] then 0 else CaseCount(entries[..|entries| - 1]) + |BackendsOf(entries[|entries| - 1])|
  }

  /** `buildUrls(port, entries)`. */
  method BuildUrls(port: nat, entries: seq<Entry>) returns (urls: seq<Case>)
    ensures urls == Cases(port, entries)
  {
    urls := [];
    for i := 0 to |entries|
      invariant urls == Cases(port, entries[..i])
    {
      var e := entries[i];
      var backends := if |e.backends| > 0 then e.backends else [WEBGPU, WEBGL2];
      ghost var before := urls;
      for j := 0 to |backends|
        invariant urls == before + EntryCases(port, e)[..j]
      {
        var be := backends[j];
        var sep := if '?' in e.path then '&' else '?';
        var url := "http://" + HOST + ":" + NatToString(port) + "/public/" + e.path + [sep] + Query(be);
        urls := urls + [Case(be + " \U{00B7} " + e.path, url, be, e.path)];
        assert EntryCases(port, e)[..j + 1] == EntryCases(port, e)[..j] + [EntryCases(port, e)[j]];
      }
      assert EntryCases(port, e)[..|backends|] == EntryCases(port, e);
      assert entries[..i + 1][..i] == entries[..i];
    }
    assert entries[..|entries|] == entries;
  }

  /** One case per entry and backend: the count. */
  lemma {:induction false} CasesLength(port: nat, entries: seq<Entry>)
    ensures |Cases(port, entries)| == CaseCount(entries)
    decreases |entries|
  {
    if entries != [] {
      CasesLength(port, entries[..|entries| - 1]);
    }
  }

  /**
   * Entry order, then backend order: the `j`-th backend of the `i`-th entry
   * is case number `CaseCount(entries[..i]) + j`.
   */
  lemma {:induction false} CasesOrder(port: nat, entries: seq<Entry>, i: nat, j: nat)
    requires i < |entries| && j < |BackendsOf(entries[i])|
    ensures CaseCount(entries[..i]) + j < |Cases(port, entries)|
    ensures Cases(port, entries)[CaseCount(entries[..i]) + j] == CaseFor(port, entries[i].path, BackendsOf(entries[i])[j])
    decreases |entries|
  {
    var n := |entries| - 1;
    var init := entries[..n];
    CasesLength(port, init);
    if i == n {
      assert init == entries[..i];
    } else {
      assert init[..i] == entries[..i] && init[i] == entries[i];
      CasesOrder(port, init, i, j);
    }
  }

  /** Every URL has a query: the path's own `?`, or the one added. */
  lemma UrlHasQuery(port: nat, path: string, be: string)
    ensures '?' in Url(port, path, be)
  {
    var head := "http://" + HOST + ":" + NatToString(port) + "/public/";
    assert Url(port, path, be) == head + path + [Sep(path)] + Query(be);
    if '?' !in path {
      assert Sep(path) == '?';
      assert (head + path + [Sep(path)])[|head + path|] == '?';
    }
  }

  /** The URL names the server, the port, the path and the backend, in that order. */
  lemma UrlParts(port: nat, path: string, be: string)
    ensures var u, head := Url(port, path, be), "http://" + HOST + ":" + NatToString(port) + "/public/" + path;
      && |head| < |u| && u[..|head|] == head
      && u[|head|] == (if '?' in path then '&' else '?')
      && u[|head| + 1..] == Query(be)
  {
    var head := "http://" + HOST + ":" + NatToString(port) + "/public/" + path;
    assert Url(port, path, be) == head + ([Sep(path)] + Query(be));
  }

  // ---------------------------------------------------------------- verdict

  /** ASCII case folding, as `/i` does without the `u` flag for an ASCII pattern. */
  function Lower(c: char): char
  {
    if 'A' <= c <= 'Z' then (c as int + 32) as char else c
  }

  /** `s` starts with `lit`, ignoring the case of ASCII letters (`lit` is lower case). */
  predicate StartsCI(s: string, lit: string)
  {
    |lit| <= |s| && forall k | 0 <= k < |lit| :: Lower(s[k]) == lit[k]
  }

  /** The first position of `c` in `s`. */
  function IndexOf(s: string, c: char): (r: Option<nat>)
    ensures r.None? <==> c !in s
    ensures r.Some? ==> r.value < |s| && s[r.value] == c && c !in s[..r.value]
  {
    if s == [] then None
    else if s[0] == c then Some(0)
    else
      var r := IndexOf(s[1..], c);
      if r.None? then None
      else
        assert s[..r.value + 1] == [s[0]] + s[1..][..r.value];
        Some(r.value + 1)
  }

  /** The length of the run of white space (`\s*`) at the start of `s`. */
  function SpaceRun(s: string): (n: nat)
    ensures n <= |s| && (forall k | 0 <= k < n :: IsSpace(s[k])) && (n < |s| ==> !IsSpace(s[n]))
  {
    if s != [] && IsSpace(s[0]) then 1 + SpaceRun(s[1..]) else 0
  }

  /** The length of the run of digits (`\d*`) at the start of `s`. */
  function DigitRun(s: string): (n: nat)
    ensures n <= |s| && AllDigits(s[..n]) && (n < |s| ==> !IsDigit(s[n]))
  {
    if s != [] && IsDigit(s[0]) then
      var n := 1 + DigitRun(s[1..]);
      assert s[..n] == [s[0]] + s[1..][..n - 1];
      n
    else 0
  }

  const STATUS_ATTR := "id=\"test-status\""

  /**
   * `/id="test-status"[^>]*>([^<]+)</i` tried at the start of `s`: `[^>]*`
   * stops at the first `>` and `[^<]+` at the first `<`, so the attempt has
   * one outcome.
   */
  function StatusAt(s: string): (r: Option<string>)
    ensures r.Some? ==> |r.value| >= 1 && '<' !in r.value
  {
    ElementTextAt(STATUS_ATTR, s)
  }

  /** The same pattern with any lower-case attribute text `attr` in place of `id="test-status"`. */
  function ElementTextAt(attr: string, s: string): (r: Option<string>)
    ensures r.Some? ==> |r.value| >= 1 && '<' !in r.value
  {
    if !StartsCI(s, attr) then None
    else
      var t := s[|attr|..];
      var q := IndexOf(t, '>');
      if q.None? then None
      else
        var u := t[q.value + 1..];
        var r := IndexOf(u, '<');
        if r.None? || r.value == 0 then None else Some(u[..r.value])
  }

  /** The leftmost match in `s`. */
  function FindStatus(s: string): Option<string>
  {
    if StatusAt(s).Some? then StatusAt(s)
    else if s == [] then None
    else FindStatus(s[1..])
  }

  /** The search finds nothing exactly when no position of `s` matches. */
  lemma {:induction false} FindStatusNone(s: string)
    ensures FindStatus(s).None? <==> forall p | 0 <= p <= |s| :: StatusAt(s[p..]).None?
  {
    assert s[0..] == s;
    if StatusAt(s).None? && s != [] {
      FindStatusNone(s[1..]);
      assert forall p | 1 <= p <= |s| :: s[p..] == s[1..][p - 1..];
    }
  }

  /** What the search finds is the match at the leftmost position that has one. */
  lemma {:induction false} FindStatusLeftmost(s: string) returns (p: nat)
    requires FindStatus(s).Some?
    ensures p <= |s| && FindStatus(s) == StatusAt(s[p..])
    ensures forall q | 0 <= q < p :: StatusAt(s[q..]).None?
  {
    if StatusAt(s).Some? {
      assert s[0..] == s;
      p := 0;
    } else {
      var p' := FindStatusLeftmost(s[1..]);
      p := p' + 1;
      assert s[p..] == s[1..][p'..];
      forall q | 0 <= q < p
        ensures StatusAt(s[q..]).None?
      {
        if q == 0 {
          assert s[0..] == s;
        } else {
          assert s[q..] == s[1..][q - 1..];
        }
      }
    }
  }

  /**
   * `/PASS\s+(\d+)\s*\/\s*FAIL\s+(\d+)/i` tried at the start of `t`: every
   * repetition runs as far as it can, and no shorter run could let the rest
   * match, so the attempt has one outcome.  Each function reads one part.
   */
  function CountsAt(t: string): Option<(nat, nat)>
  {
    if StartsCI(t, "pass") then PassRest(t[4..]) else None
  }

  /** `\s+(\d+)` and the rest. */
  function PassRest(u: string): Option<(nat, nat)>
  {
    var n := SpaceRun(u);
    if n == 0 then None else FirstCount(u[n..])
  }

  function FirstCount(u: string): Option<(nat, nat)>
  {
    var d := DigitRun(u);
    if d == 0 then None
    else
      var fail := SlashRest(u[d..]);
      if fail.None? then None else Some((DigitsValue(u[..d]), fail.value))
  }

  /** `\s*\/` and the rest. */
  function SlashRest(u: string): Option<nat>
  {
    var v := u[SpaceRun(u)..];
    if v == [] || v[0] != '/' then None else FailRest(v[1..])
  }

  /** `\s*FAIL` and the rest. */
  function FailRest(u: string): Option<nat>
  {
    var v := u[SpaceRun(u)..];
    if StartsCI(v, "fail") then SecondCount(v[4..]) else None
  }

  /** `\s+(\d+)`. */
  function SecondCount(u: string): Option<nat>
  {
    var n := SpaceRun(u);
    var d := DigitRun(u[n..]);
    if n == 0 || d == 0 then None else Some(DigitsValue(u[n..][..d]))
  }

  function FindCounts(t: string): Option<(nat, nat)>
  {
    if CountsAt(t).Some? then CountsAt(t)
    else if t == [] then None
    else FindCounts(t[1..])
  }

  datatype Verdict = Verdict(ok: bool, pass: nat, fail: nat)

  /** The verdict `runHeadless` resolves with, from the dumped DOM `out`. */
  function VerdictOf(out: string): (v: Verdict)
    ensures v.ok <==> v.fail == 0 && v.pass > 0
    ensures FindStatus(out).None? ==> v == Verdict(false, 0, 1)
    ensures FindStatus(out).Some? && FindCounts(FindStatus(out).value).None? ==> v == Verdict(false, 0, 1)
    ensures FindStatus(out).Some? && FindCounts(FindStatus(out).value).Some? ==>
              (v.pass, v.fail) == FindCounts(FindStatus(out).value).value
  {
    var m := FindStatus(out);
    if m.None? then Verdict(false, 0, 1)
    else
      var s := FindCounts(m.value);
      var pass := if s.Some? then s.value.0 else 0;
      var fail := if s.Some? then s.value.1 else 1;
      Verdict(fail == 0 && pass > 0, pass, fail)
  }

  /** What a page's status element shows: `PASS <pass> / FAIL <fail>`. */
  function StatusText(pass: nat, fail: nat): string
  {
    "PASS" + (" " + NatToString(pass) + (" / FAIL" + (" " + NatToString(fail))))
  }

  lemma SpaceRunOne(rest: string)
    requires rest == [] || !IsSpace(rest[0])
    ensures SpaceRun(" " + rest) == 1 && (" " + rest)[1..] == rest
  {
    assert (" " + rest)[1..] == rest;
  }

  lemma SpaceRunNone(rest: string)
    requires rest == [] || !IsSpace(rest[0])
    ensures SpaceRun(rest) == 0 && rest[0..] == rest
  {
  }

  lemma DigitRunOf(d: string, rest: string)
    requires AllDigits(d)
    requires rest == [] || !IsDigit(rest[0])
    ensures DigitRun(d + rest) == |d| && (d + rest)[..|d|] == d && (d + rest)[|d|..] == rest
  {
    assert (d + rest)[..|d|] == d;
  }

  lemma SecondCountOf(fail: nat)
    ensures SecondCount(" " + NatToString(fail)) == Some(fail)
  {
    var b := NatToString(fail);
    assert IsDigit(b[0]);
    SpaceRunOne(b);
    assert b + "" == b;
    DigitRunOf(b, "");
    DigitsOfNat(fail);
  }

  lemma FailRestOf(fail: nat)
    ensures FailRest(" FAIL" + (" " + NatToString(fail))) == Some(fail)
  {
    var v := "FAIL" + (" " + NatToString(fail));
    assert " FAIL" + (" " + NatToString(fail)) == " " + v;
    SpaceRunOne(v);
    assert StartsCI(v, "fail");
    assert v[4..] == " " + NatToString(fail);
    SecondCountOf(fail);
  }

  lemma SlashRestOf(fail: nat)
    ensures SlashRest(" / FAIL" + (" " + NatToString(fail))) == Some(fail)
  {
    var v := "/" + (" FAIL" + (" " + NatToString(fail)));
    assert " / FAIL" + (" " + NatToString(fail)) == " " + v;
    SpaceRunOne(v);
    assert v[1..] == " FAIL" + (" " + NatToString(fail));
    FailRestOf(fail);
  }

  lemma FirstCountOf(pass: nat, fail: nat)
    ensures FirstCount(NatToString(pass) + (" / FAIL" + (" " + NatToString(fail)))) == Some((pass, fail))
  {
    var a := NatToString(pass);
    var rest := " / FAIL" + (" " + NatToString(fail));
    DigitRunOf(a, rest);
    SlashRestOf(fail);
    DigitsOfNat(pass);
  }

  /** The counts a page shows are the counts read back. */
  lemma CountsOfStatus(pass: nat, fail: nat)
    ensures CountsAt(StatusText(pass, fail)) == Some((pass, fail))
  {
    var a := NatToString(pass);
    var u := " " + a + (" / FAIL" + (" " + NatToString(fail)));
    var t := StatusText(pass, fail);
    assert t == "PASS" + u;
    assert StartsCI(t, "pass");
    assert t[4..] == u;
    assert IsDigit(a[0]);
    assert u == " " + (a + (" / FAIL" + (" " + NatToString(fail))));
    SpaceRunOne(a + (" / FAIL" + (" " + NatToString(fail))));
    FirstCountOf(pass, fail);
  }

  /** A lower-case pattern is found case-insensitively at the start of anything that starts with it. */
  lemma StartsCISelf(w: string, rest: string)
    requires forall k | 0 <= k < |w| :: Lower(w[k]) == w[k]
    ensures StartsCI(w + rest, w)
  {
  }

  lemma IndexOfAfter(x: string, c: char, rest: string)
    requires c !in x
    ensures IndexOf(x + [c] + rest, c) == Some(|x|)
  {
    var r := IndexOf(x + [c] + rest, c);
    assert (x + [c] + rest)[|x|] == c;
    assert (x + [c] + rest)[..|x|] == x;
  }

  lemma StatusTextNoMarkup(pass: nat, fail: nat)
    ensures '<' !in StatusText(pass, fail) && |StatusText(pass, fail)| >= 1
  {
    var a, b := NatToString(pass), NatToString(fail);
    assert forall k | 0 <= k < |a| :: IsDigit(a[k]);
    assert forall k | 0 <= k < |b| :: IsDigit(b[k]);
    assert '<' !in "PASS" && '<' !in " " && '<' !in " / FAIL";
  }

  lemma StatusAttrLower()
    ensures forall k | 0 <= k < |STATUS_ATTR| :: Lower(STATUS_ATTR[k]) == STATUS_ATTR[k]
  {
  }

  /** An element's text is read up to the first `<` after the attribute's `>`. */
  lemma ElementTextAtOf(attr: string, txt: string, rest: string)
    requires forall k | 0 <= k < |attr| :: Lower(attr[k]) == attr[k]
    requires |txt| >= 1 && '<' !in txt
    ensures ElementTextAt(attr, attr + (">" + (txt + ("<" + rest)))) == Some(txt)
  {
    var tail := ">" + (txt + ("<" + rest));
    var s := attr + tail;
    StartsCISelf(attr, tail);
    assert s[|attr|..] == tail;
    IndexOfAfter([], '>', txt + ("<" + rest));
    assert [] + ['>'] + (txt + ("<" + rest)) == tail;
    assert tail[1..] == txt + ("<" + rest);
    IndexOfAfter(txt, '<', rest);
    assert txt + ['<'] + rest == txt + ("<" + rest);
    assert (txt + ("<" + rest))[..|txt|] == txt;
  }

  /**
   * A page whose status element shows `PASS <pass> / FAIL <fail>` gets the
   * verdict those counts give: it passes exactly when nothing failed and
   * something passed.
   */
  lemma VerdictOfStatus(pass: nat, fail: nat, rest: string)
    ensures VerdictOf(STATUS_ATTR + (">" + (StatusText(pass, fail) + ("<" + rest))))
            == Verdict(fail == 0 && pass > 0, pass, fail)
  {
    var txt := StatusText(pass, fail);
    StatusTextNoMarkup(pass, fail);
    StatusAttrLower();
    ElementTextAtOf(STATUS_ATTR, txt, rest);
    CountsOfStatus(pass, fail);
  }

  // ---------------------------------------------------------------- label column

  /** `cases.reduce((m, e) => Math.max(m, e.label.length), 0)`. */
  function LongestLabel(cases: seq<Case>): (m: nat)
    ensures forall i | 0 <= i < |cases| :: |cases[i].labelText| <= m
    ensures cases == [] ==> m == 0
    ensures cases != [] ==> exists i | 0 <= i < |cases| :: m == |cases[i].labelText|
    decreases |cases|
  {
    if cases == [] then 0
    else
      var init := cases[..|cases| - 1];
      var m := Max(LongestLabel(init), |cases[|cases| - 1].labelText|);
      assert forall i | 0 <= i < |init| :: init[i] == cases[i];
      m
  }

  /** `Math.min(80, …)`. */
  function LabelWidth(cases: seq<Case>): (w: nat)
    ensures w <= 80
    ensures forall i | 0 <= i < |cases| :: Min(80, |cases[i].labelText|) <= w
  {
    Min(80, LongestLabel(cases))
  }

  /** Labels up to 80 characters long come out of the padding all of one width. */
  lemma PaddedLabelsAligned(cases: seq<Case>, i: nat, j: nat)
    requires i < |cases| && j < |cases|
    requires |cases[i].labelText| <= 80 && |cases[j].labelText| <= 80
    ensures |PadEnd(cases[i].labelText, LabelWidth(cases))| == |PadEnd(cases[j].labelText, LabelWidth(cases))| == LabelWidth(cases)
  {
  }
}
