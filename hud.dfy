/**
 * The adapter HUD: HTML escaping and the markup of the adapter panel
 * (name, sorted features, limits table).
 */
module Hud {
  import opened Wrappers
  import opened Text
  import opened Seqs

  // ---------------------------------------------------------------- escaping

  /** `s.replaceAll(c, rep)` for a one-character pattern: every occurrence, left to right. */
  function ReplaceAll(s: string, c: char, rep: string): (r: string)
    ensures c !in s ==> r == s
  {
    if s == [] then [] else (if s[0] == c then rep else [s[0]]) + ReplaceAll(s[1..], c, rep)
  }

  /** Replacing distributes over concatenation: `replaceAll` works character by character. */
  lemma {:induction false} ReplaceAllConcat(a: string, b: string, c: char, rep: string)
    ensures ReplaceAll(a + b, c, rep) == ReplaceAll(a, c, rep) + ReplaceAll(b, c, rep)
  {
    if a != [] {
      ReplaceAllConcat(a[1..], b, c, rep);
      assert (a + b)[0] == a[0] && (a + b)[1..] == a[1..] + b;
      var head := if a[0] == c then rep else [a[0]];
      AppendAssoc(head, ReplaceAll(a[1..], c, rep), ReplaceAll(b, c, rep));
      assert ReplaceAll(a + b, c, rep) == head + ReplaceAll(a[1..] + b, c, rep);
      assert ReplaceAll(a, c, rep) == head + ReplaceAll(a[1..], c, rep);
    } else {
      assert a + b == b;
    }
  }

  /** The characters HTML gives a meaning to. */
  predicate Special(c: char) { c == '&' || c == '<' || c == '>' || c == '"' || c == '\'' }

  /** `escapeHtml(s)`: the five replacements, `&` first so that the entities put in are not escaped again. */
  function EscapeHtml(s: string): (r: string)
    ensures '&' !in s && '<' !in s && '>' !in s && '"' !in s && '\'' !in s ==> r == s
  {
    var amp := ReplaceAll(s, '&', "&amp;");
    var lt := ReplaceAll(amp, '<', "&lt;");
    var gt := ReplaceAll(lt, '>', "&gt;");
    var quot := ReplaceAll(gt, '"', "&quot;");
    ReplaceAll(quot, '\'', "&#39;")
  }

  /** The entity of one character, or the character itself. */
  function EscapeChar(c: char): string
  {
    match c
    case '&' => "&amp;"
    case '<' => "&lt;"
    case '>' => "&gt;"
    case '"' => "&quot;"
    case '\'' => "&#39;"
    case _ => [c]
  }

  /** Escaping as a map over the characters, each replaced by its entity. */
  function EscapeEach(s: string): string
  {
    if s == [] then [] else EscapeChar(s[0]) + EscapeEach(s[1..])
  }

  lemma EscapeHtmlConcat(a: string, b: string)
    ensures EscapeHtml(a + b) == EscapeHtml(a) + EscapeHtml(b)
  {
    var amp := ReplaceAll(a + b, '&', "&amp;");
    ReplaceAllConcat(a, b, '&', "&amp;");
    var a1, b1 := ReplaceAll(a, '&', "&amp;"), ReplaceAll(b, '&', "&amp;");
    ReplaceAllConcat(a1, b1, '<', "&lt;");
    var a2, b2 := ReplaceAll(a1, '<', "&lt;"), ReplaceAll(b1, '<', "&lt;");
    ReplaceAllConcat(a2, b2, '>', "&gt;");
    var a3, b3 := ReplaceAll(a2, '>', "&gt;"), ReplaceAll(b2, '>', "&gt;");
    ReplaceAllConcat(a3, b3, '"', "&quot;");
    var a4, b4 := ReplaceAll(a3, '"', "&quot;"), ReplaceAll(b3, '"', "&quot;");
    ReplaceAllConcat(a4, b4, '\'', "&#39;");
  }

  lemma {:induction false} ReplaceAllAbsent(s: string, c: char, rep: string)
    requires c !in s
    ensures ReplaceAll(s, c, rep) == s
  {
    if s != [] {
      ReplaceAllAbsent(s[1..], c, rep);
      assert s == [s[0]] + s[1..];
    }
  }

  lemma ReplaceAllOne(x: char, c: char, rep: string)
    ensures ReplaceAll([x], c, rep) == if x == c then rep else [x]
  {
    assert [x][1..] == [];
  }

  /** One character escapes to its entity: no later replacement touches an entity put in by an earlier one. */
  lemma EscapeHtmlChar(x: char)
    ensures EscapeHtml([x]) == EscapeChar(x)
  {
    ReplaceAllOne(x, '&', "&amp;");
    if x == '&' {
      EscapeLater(ReplaceAll([x], '&', "&amp;"), "&amp;", 1);
    } else {
      ReplaceAllOne(x, '<', "&lt;");
      if x == '<' {
        EscapeLater(ReplaceAll([x], '<', "&lt;"), "&lt;", 2);
      } else {
        ReplaceAllOne(x, '>', "&gt;");
        if x == '>' {
          EscapeLater(ReplaceAll([x], '>', "&gt;"), "&gt;", 3);
        } else {
          ReplaceAllOne(x, '"', "&quot;");
          if x == '"' {
            EscapeLater(ReplaceAll([x], '"', "&quot;"), "&quot;", 4);
          } else {
            ReplaceAllOne(x, '\'', "&#39;");
          }
        }
      }
    }
  }

  /** The replacements after the `step`-th leave the entity `e` that step put in alone. */
  lemma EscapeLater(s: string, e: string, step: nat)
    requires 1 <= step <= 4 && s == e
    requires e == (if step == 1 then "&amp;" else if step == 2 then "&lt;" else if step == 3 then "&gt;" else "&quot;")
    ensures step <= 1 ==> ReplaceAll(s, '<', "&lt;") == s
    ensures step <= 2 ==> ReplaceAll(s, '>', "&gt;") == s
    ensures step <= 3 ==> ReplaceAll(s, '"', "&quot;") == s
    ensures ReplaceAll(s, '\'', "&#39;") == s
  {
    assert '<' !in e && '>' !in e && '"' !in e && '\'' !in e;
    ReplaceAllAbsent(s, '<', "&lt;");
    ReplaceAllAbsent(s, '>', "&gt;");
    ReplaceAllAbsent(s, '"', "&quot;");
    ReplaceAllAbsent(s, '\'', "&#39;");
  }

  /** The chain of replacements escapes each character on its own: `&` is never escaped twice. */
  lemma {:induction false} EscapeHtmlPerChar(s: string)
    ensures EscapeHtml(s) == EscapeEach(s)
  {
    if s == [] {
    } else {
      assert s == [s[0]] + s[1..];
      EscapeHtmlConcat([s[0]], s[1..]);
      EscapeHtmlChar(s[0]);
      EscapeHtmlPerChar(s[1..]);
    }
  }

  /** The length of the entity `s` starts with, or 0 when it starts with none. */
  function EntityLength(s: string): (n: nat)
    ensures n <= |s| && n != 1
  {
    if |s| < 2 || s[0] != '&' then 0
    else match s[1]
      case 'a' => if |s| >= 5 && s[..5] == "&amp;" then 5 else 0
      case 'l' => if |s| >= 4 && s[..4] == "&lt;" then 4 else 0
      case 'g' => if |s| >= 4 && s[..4] == "&gt;" then 4 else 0
      case 'q' => if |s| >= 6 && s[..6] == "&quot;" then 6 else 0
      case '#' => if |s| >= 5 && s[..5] == "&#39;" then 5 else 0
      case _ => 0
  }

  /** The character an entity stands for, told by its second character. */
  function EntityChar(second: char): char
  {
    match second
    case 'a' => '&'
    case 'l' => '<'
    case 'g' => '>'
    case 'q' => '"'
    case _ => '\''
  }

  /** Reading the five entities back; any other character stands for itself. */
  function Unescape(s: string): string
    decreases |s|
  {
    if s == [] then []
    else
      var n := EntityLength(s);
      if n > 0 then [EntityChar(s[1])] + Unescape(s[n..]) else [s[0]] + Unescape(s[1..])
  }

  lemma UnescapeEntity(c: char, rest: string)
    ensures Unescape(EscapeChar(c) + rest) == [c] + Unescape(rest)
  {
    if Special(c) {
      EntityOf(c, EscapeChar(c), rest);
    } else {
      var s := [c] + rest;
      assert s[0] == c && s[1..] == rest;
    }
  }

  /** A special character's entity is recognised in front of any text, and stands for that character. */
  lemma EntityOf(c: char, e: string, rest: string)
    requires Special(c) && e == EscapeChar(c)
    ensures EntityLength(e + rest) == |e| && EntityChar(e[1]) == c
    ensures Unescape(e + rest) == [c] + Unescape(rest)
  {
    var s := e + rest;
    assert s[..|e|] == e && s[|e|..] == rest;
    assert s[0] == e[0] && s[1] == e[1];
  }

  /** Escaping loses nothing: unescaping gives the text back. */
  lemma {:induction false} UnescapeEscapeHtml(s: string)
    ensures Unescape(EscapeHtml(s)) == s
  {
    EscapeHtmlPerChar(s);
    UnescapeEach(s);
  }

  lemma {:induction false} UnescapeEach(s: string)
    ensures Unescape(EscapeEach(s)) == s
  {
    if s != [] {
      UnescapeEntity(s[0], EscapeEach(s[1..]));
      UnescapeEach(s[1..]);
      assert s == [s[0]] + s[1..];
    }
  }

  /** No escaped text holds a character that opens or closes a tag or an attribute value. */
  lemma {:induction false} EscapeHtmlNoMarkup(s: string)
    ensures '<' !in EscapeHtml(s) && '>' !in EscapeHtml(s) && '"' !in EscapeHtml(s) && '\'' !in EscapeHtml(s)
  {
    EscapeHtmlPerChar(s);
    EscapeEachNoMarkup(s);
  }

  lemma {:induction false} EscapeEachNoMarkup(s: string)
    ensures '<' !in EscapeEach(s) && '>' !in EscapeEach(s) && '"' !in EscapeEach(s) && '\'' !in EscapeEach(s)
  {
    if s != [] {
      EscapeEachNoMarkup(s[1..]);
      var e := EscapeChar(s[0]);
      assert '<' !in e && '>' !in e && '"' !in e && '\'' !in e;
    }
  }

  // ---------------------------------------------------------------- the panel

  /** `info.features`: a `Set`, with its members in insertion order, or anything else. */
  datatype FeatureField = NotASet | SetOf(members: seq<string>)

  /** `info.limits`: a truthy object, with its own entries in order, or anything else. */
  datatype LimitField = NotAnObject | Entries(entries: seq<(string, int)>)

  /** What the panel is given; a `null` or `undefined` name is `None`. */
  datatype HudInfo = HudInfo(name: Option<string>, features: FeatureField, limits: LimitField)

  const UNKNOWN_GPU := "Unknown GPU"

  /** `info?.name ?? 'Unknown GPU'`. */
  function NameShown(info: Option<HudInfo>): string
  {
    if info.Some? && info.value.name.Some? then info.value.name.value else UNKNOWN_GPU
  }

  /** `info?.features instanceof Set ? Array.from(info.features).sort() : []`. */
  function FeaturesShown(info: Option<HudInfo>): seq<string>
  {
    if info.Some? && info.value.features.SetOf? then Sort(info.value.features.members) else []
  }

  /** `info?.limits && typeof info.limits === 'object' ? info.limits : {}`, as its entries. */
  function LimitsShown(info: Option<HudInfo>): seq<(string, int)>
  {
    if info.Some? && info.value.limits.Entries? then info.value.limits.entries else []
  }

  // Elements are written out from short pieces: the tag and the class are arguments.

  /** `<tag class="cls">`. */
  function Open(tag: string, cls: string): string
  {
    "<" + tag + " class=\"" + cls + "\">"
  }

  /** `<tag>`. */
  function Plain(tag: string): string
  {
    "<" + tag + ">"
  }

  /** `</tag>`. */
  function Close(tag: string): string
  {
    "</" + tag + ">"
  }

  function Element(tag: string, cls: string, inner: string): string
  {
    Open(tag, cls) + inner + Close(tag)
  }

  function PlainElement(tag: string, inner: string): string
  {
    Plain(tag) + inner + Close(tag)
  }

  /** A template line: a newline, the two spaces of indentation, then `x`. */
  function Line(x: string): string
  {
    "\n  " + x
  }

  /** `features.map(f => `<li>${escapeHtml(f)}</li>`).join('')`. */
  function FeatureItems(fs: seq<string>): string
  {
    if fs == [] then "" else PlainElement("li", EscapeHtml(fs[0])) + FeatureItems(fs[1..])
  }

  function FeaturesHtml(fs: seq<string>): string
  {
    if |fs| > 0 then Element("ul", "hud-features", FeatureItems(fs))
    else Element("div", "hud-features none", "(none)")
  }

  /** `<tr><td class="k">${escapeHtml(k)}</td><td class="v">${String(v)}</td></tr>`. */
  function LimitRow(k: string, v: int): string
  {
    PlainElement("tr", Element("td", "k", EscapeHtml(k)) + Element("td", "v", IntToString(v)))
  }

  /** `Object.entries(limits).map(…).join('')`. */
  function LimitRows(ls: seq<(string, int)>): string
  {
    if ls == [] then "" else LimitRow(ls[0].0, ls[0].1) + LimitRows(ls[1..])
  }

  function LimitsHtml(ls: seq<(string, int)>): string
  {
    if |ls| > 0 then Element("table", "hud-limits", LimitRows(ls))
    else Element("div", "hud-limits none", "(none)")
  }

  /** The fixed words of the panel's template: its tag, its classes, its headings and its hint. */
  datatype Words = Words(tag: string, panel: string, titleClass: string, title: string, nameClass: string,
                         sectionClass: string, features: string, limits: string, hintClass: string,
                         press: string, bold: string, key: string, toggle: string)

  const HUD_WORDS := Words("div", "hud", "hud-title", "Adapter", "hud-name", "hud-section", "Features", "Limits",
                           "hud-hint", "Press ", "b", "H", " to toggle")

  /** `Press <b>H</b> to toggle`. */
  function Hint(w: Words): string
  {
    w.press + PlainElement(w.bold, w.key) + w.toggle
  }

  /** The template, without its leading newline, over the words `w`. */
  function PanelOf(w: Words, name: string, featsHtml: string, limitsHtml: string): string
  {
    Open(w.tag, w.panel)
    + (Line(Element(w.tag, w.titleClass, w.title))
    + (Line(Element(w.tag, w.nameClass, EscapeHtml(name)))
    + (Line(Element(w.tag, w.sectionClass, w.features))
    + (Line(featsHtml)
    + (Line(Element(w.tag, w.sectionClass, w.limits))
    + (Line(limitsHtml)
    + (Line(Element(w.tag, w.hintClass, Hint(w)))
    + ("\n" + Close(w.tag)))))))))
  }

  function Panel(name: string, featsHtml: string, limitsHtml: string): string
  {
    PanelOf(HUD_WORDS, name, featsHtml, limitsHtml)
  }

  /** `hudHtml(info)`: the template, trimmed. */
  function HudHtml(info: Option<HudInfo>): (r: string)
    ensures |r| > 0 && r[0] == '<' && r[|r| - 1] == '>'
  {
    TrimmedPanelEnds(NameShown(info), FeaturesHtml(FeaturesShown(info)), LimitsHtml(LimitsShown(info)));
    Trim("\n" + Panel(NameShown(info), FeaturesHtml(FeaturesShown(info)), LimitsHtml(LimitsShown(info))))
  }

  /** Trimming only drops the template's leading newline: the panel starts with `<` and ends with `>`. */
  lemma HudHtmlIsPanel(info: Option<HudInfo>)
    ensures HudHtml(info) == Panel(NameShown(info), FeaturesHtml(FeaturesShown(info)), LimitsHtml(LimitsShown(info)))
  {
    TrimPanel(NameShown(info), FeaturesHtml(FeaturesShown(info)), LimitsHtml(LimitsShown(info)));
  }

  lemma TrimPanel(name: string, f: string, l: string)
    ensures Trim("\n" + Panel(name, f, l)) == Panel(name, f, l)
  {
    PanelEnds(name, f, l);
    TrimAround(Panel(name, f, l));
  }

  lemma TrimmedPanelEnds(name: string, f: string, l: string)
    ensures var r := Trim("\n" + Panel(name, f, l)); |r| > 0 && r[0] == '<' && r[|r| - 1] == '>'
  {
    TrimPanel(name, f, l);
    PanelEnds(name, f, l);
  }

  lemma PanelEnds(name: string, f: string, l: string)
    ensures var p := Panel(name, f, l); |p| > 0 && p[0] == '<' && p[|p| - 1] == '>'
  {
    PanelOfEnds(HUD_WORDS, name, f, l);
  }

  lemma PanelOfEnds(w: Words, name: string, f: string, l: string)
    ensures var p := PanelOf(w, name, f, l); |p| > 0 && p[0] == '<' && p[|p| - 1] == '>'
  {
    var o, c := Open(w.tag, w.panel), "\n" + Close(w.tag);
    assert o[0] == '<' && c[|c| - 1] == '>';
  }

  /** `("\n" + s).trim()` is `s` when `s` starts and ends with a character that is not white space. */
  lemma TrimAround(s: string)
    requires |s| > 0 && !IsSpace(s[0]) && !IsSpace(s[|s| - 1])
    ensures Trim("\n" + s) == s
  {
    assert ("\n" + s)[0] == '\n' && ("\n" + s)[1..] == s;
  }

  /** The features shown are in ascending order and are exactly a Set's members. */
  lemma HudFeaturesSorted(info: Option<HudInfo>)
    ensures Sorted(FeaturesShown(info))
    ensures info.Some? && info.value.features.SetOf? ==>
              multiset(FeaturesShown(info)) == multiset(info.value.features.members)
    ensures !(info.Some? && info.value.features.SetOf?) ==> FeaturesShown(info) == []
  {
    if info.Some? && info.value.features.SetOf? {
      SortCorrect(info.value.features.members);
    }
  }

  /** The order in which a Set was filled does not show in the panel. */
  lemma HudFeatureOrderFree(name: Option<string>, a: seq<string>, b: seq<string>, limits: LimitField)
    requires multiset(a) == multiset(b)
    ensures HudHtml(Some(HudInfo(name, SetOf(a), limits))) == HudHtml(Some(HudInfo(name, SetOf(b), limits)))
  {
    SortOrderFree(a, b);
    var x, y := Some(HudInfo(name, SetOf(a), limits)), Some(HudInfo(name, SetOf(b), limits));
    HudHtmlShows(x, y);
  }

  /** The panel depends on the name, the features and the limits it shows, and on nothing else. */
  lemma HudHtmlShows(x: Option<HudInfo>, y: Option<HudInfo>)
    requires NameShown(x) == NameShown(y) && FeaturesShown(x) == FeaturesShown(y) && LimitsShown(x) == LimitsShown(y)
    ensures HudHtml(x) == HudHtml(y)
  {
  }

  /**
   * A missing name shows as 'Unknown GPU' (an empty one is kept), and
   * anything but a Set or an object shows as an empty section.
   */
  lemma HudDefaults(info: Option<HudInfo>)
    ensures (info.None? || info.value.name.None?) <==> NameShown(info) == UNKNOWN_GPU && (info.Some? ==> info.value.name != Some(UNKNOWN_GPU))
    ensures info.Some? && info.value.name == Some("") ==> NameShown(info) == ""
    ensures (info.None? || info.value.features.NotASet?) ==> FeaturesShown(info) == []
    ensures (info.None? || info.value.limits.NotAnObject?) ==> LimitsShown(info) == []
  {
  }

  lemma OpenTags(tag: string, cls: string)
    requires '<' !in tag && '<' !in cls
    ensures Count(Open(tag, cls), '<') == 1
  {
    CountAbsent(tag, '<');
    CountAbsent(cls, '<');
    CountAbsent(" class=\"", '<');
    CountAbsent("\">", '<');
    CountAppend("<", tag, '<');
    CountAppend("<" + tag, " class=\"", '<');
    CountAppend("<" + tag + " class=\"", cls, '<');
    CountAppend("<" + tag + " class=\"" + cls, "\">", '<');
  }

  lemma PlainTags(tag: string)
    requires '<' !in tag
    ensures Count(Plain(tag), '<') == 1
  {
    CountAbsent(tag, '<');
    CountAppend("<", tag, '<');
    CountAppend("<" + tag, ">", '<');
  }

  lemma CloseTags(tag: string)
    requires '<' !in tag
    ensures Count(Close(tag), '<') == 1
  {
    CountAbsent(tag, '<');
    CountAppend("</", tag, '<');
    CountAppend("</" + tag, ">", '<');
  }

  /** An element holds two tags of its own, and those of its content. */
  lemma ElementTags(tag: string, cls: string, inner: string)
    requires '<' !in tag && '<' !in cls
    ensures Count(Element(tag, cls, inner), '<') == 2 + Count(inner, '<')
  {
    OpenTags(tag, cls);
    CloseTags(tag);
    CountAppend(Open(tag, cls), inner, '<');
    CountAppend(Open(tag, cls) + inner, Close(tag), '<');
  }

  lemma PlainElementTags(tag: string, inner: string)
    requires '<' !in tag
    ensures Count(PlainElement(tag, inner), '<') == 2 + Count(inner, '<')
  {
    PlainTags(tag);
    CloseTags(tag);
    CountAppend(Plain(tag), inner, '<');
    CountAppend(Plain(tag) + inner, Close(tag), '<');
  }

  lemma LineTags(x: string)
    ensures Count(Line(x), '<') == Count(x, '<')
  {
    CountAppend("\n  ", x, '<');
  }

  /** Escaped text holds no tag. */
  lemma EscapedTags(s: string)
    ensures Count(EscapeHtml(s), '<') == 0
  {
    EscapeHtmlNoMarkup(s);
    CountAbsent(EscapeHtml(s), '<');
  }

  lemma {:induction false} FeatureItemsTags(fs: seq<string>)
    ensures Count(FeatureItems(fs), '<') == 2 * |fs|
  {
    if fs != [] {
      FeatureItemsTags(fs[1..]);
      EscapedTags(fs[0]);
      PlainElementTags("li", EscapeHtml(fs[0]));
      CountAppend(PlainElement("li", EscapeHtml(fs[0])), FeatureItems(fs[1..]), '<');
    }
  }

  /** A limit row holds six tags whatever its key and value. */
  lemma LimitRowTags(k: string, v: int)
    ensures Count(LimitRow(k, v), '<') == 6
  {
    EscapedTags(k);
    assert '<' !in IntToString(v);
    CountAbsent(IntToString(v), '<');
    ElementTags("td", "k", EscapeHtml(k));
    ElementTags("td", "v", IntToString(v));
    CountAppend(Element("td", "k", EscapeHtml(k)), Element("td", "v", IntToString(v)), '<');
    PlainElementTags("tr", Element("td", "k", EscapeHtml(k)) + Element("td", "v", IntToString(v)));
  }

  lemma {:induction false} LimitRowsTags(ls: seq<(string, int)>)
    ensures Count(LimitRows(ls), '<') == 6 * |ls|
  {
    if ls != [] {
      LimitRowsTags(ls[1..]);
      LimitRowTags(ls[0].0, ls[0].1);
      CountAppend(LimitRow(ls[0].0, ls[0].1), LimitRows(ls[1..]), '<');
    }
  }

  lemma FeaturesHtmlTags(fs: seq<string>)
    ensures Count(FeaturesHtml(fs), '<') == 2 + 2 * |fs|
  {
    if |fs| > 0 {
      FeatureItemsTags(fs);
      ElementTags("ul", "hud-features", FeatureItems(fs));
    } else {
      CountAbsent("(none)", '<');
      ElementTags("div", "hud-features none", "(none)");
    }
  }

  lemma LimitsHtmlTags(ls: seq<(string, int)>)
    ensures Count(LimitsHtml(ls), '<') == 2 + 6 * |ls|
  {
    if |ls| > 0 {
      LimitRowsTags(ls);
      ElementTags("table", "hud-limits", LimitRows(ls));
    } else {
      CountAbsent("(none)", '<');
      ElementTags("div", "hud-limits none", "(none)");
    }
  }

  lemma HintTags(w: Words)
    requires '<' !in w.press && '<' !in w.bold && '<' !in w.key && '<' !in w.toggle
    ensures Count(Hint(w), '<') == 2
  {
    CountAbsent(w.key, '<');
    PlainElementTags(w.bold, w.key);
    CountAbsent(w.press, '<');
    CountAbsent(w.toggle, '<');
    CountAppend(w.press, PlainElement(w.bold, w.key), '<');
    CountAppend(w.press + PlainElement(w.bold, w.key), w.toggle, '<');
  }

  /** The template holds fourteen tags of its own, besides the two sections. */
  lemma PanelTags(name: string, f: string, l: string)
    ensures Count(Panel(name, f, l), '<') == 14 + Count(f, '<') + Count(l, '<')
  {
    HudWordsTags();
    PanelOfTags(HUD_WORDS, name, f, l);
  }

  /** None of the panel's words holds a tag. */
  predicate WordsTags(w: Words)
  {
    ClassesTags(w) && TextTags(w)
  }

  predicate ClassesTags(w: Words)
  {
    && '<' !in w.tag && '<' !in w.panel && '<' !in w.titleClass && '<' !in w.nameClass
    && '<' !in w.sectionClass && '<' !in w.hintClass && '<' !in w.bold
  }

  predicate TextTags(w: Words)
  {
    && '<' !in w.title && '<' !in w.features && '<' !in w.limits
    && '<' !in w.press && '<' !in w.key && '<' !in w.toggle
  }

  lemma HudWordsTags()
    ensures WordsTags(HUD_WORDS)
  {
    HudClassesTags();
    HudTextTags();
  }

  lemma HudClassesTags()
    ensures ClassesTags(HUD_WORDS)
  {
  }

  lemma HudTextTags()
    ensures TextTags(HUD_WORDS)
  {
  }

  /** Counting over any words without tags of their own, and a hint with two. */
  lemma PanelOfTags(w: Words, name: string, f: string, l: string)
    requires WordsTags(w)
    ensures Count(PanelOf(w, name, f, l), '<') == 14 + Count(f, '<') + Count(l, '<')
  {
    var title := Line(Element(w.tag, w.titleClass, w.title));
    var nameLine := Line(Element(w.tag, w.nameClass, EscapeHtml(name)));
    var features := Line(Element(w.tag, w.sectionClass, w.features));
    var fLine := Line(f);
    var limits := Line(Element(w.tag, w.sectionClass, w.limits));
    var lLine := Line(l);
    var hint := Line(Element(w.tag, w.hintClass, Hint(w)));
    var end := "\n" + Close(w.tag);
    EscapedTags(name);
    ElementTags(w.tag, w.titleClass, w.title);
    ElementTags(w.tag, w.nameClass, EscapeHtml(name));
    ElementTags(w.tag, w.sectionClass, w.features);
    ElementTags(w.tag, w.sectionClass, w.limits);
    HintTags(w);
    CountAbsent(w.title, '<');
    CountAbsent(w.features, '<');
    CountAbsent(w.limits, '<');
    ElementTags(w.tag, w.hintClass, Hint(w));
    LineTags(Element(w.tag, w.titleClass, w.title));
    LineTags(Element(w.tag, w.nameClass, EscapeHtml(name)));
    LineTags(Element(w.tag, w.sectionClass, w.features));
    LineTags(f);
    LineTags(Element(w.tag, w.sectionClass, w.limits));
    LineTags(l);
    LineTags(Element(w.tag, w.hintClass, Hint(w)));
    OpenTags(w.tag, w.panel);
    CloseTags(w.tag);
    CountAppend("\n", Close(w.tag), '<');
    CountAppend(hint, end, '<');
    CountAppend(lLine, hint + end, '<');
    CountAppend(limits, lLine + (hint + end), '<');
    CountAppend(fLine, limits + (lLine + (hint + end)), '<');
    CountAppend(features, fLine + (limits + (lLine + (hint + end))), '<');
    CountAppend(nameLine, features + (fLine + (limits + (lLine + (hint + end)))), '<');
    CountAppend(title, nameLine + (features + (fLine + (limits + (lLine + (hint + end))))), '<');
    CountAppend(Open(w.tag, w.panel), title + (nameLine + (features + (fLine + (limits + (lLine + (hint + end)))))), '<');
  }

  /**
   * No name, feature or limit key can open a tag: the panel holds 18 tags of
   * its own, 2 per feature and 6 per limit, whatever the text.
   */
  lemma HudMarkupCount(info: Option<HudInfo>)
    ensures Count(HudHtml(info), '<') == 18 + 2 * |FeaturesShown(info)| + 6 * |LimitsShown(info)|
  {
    HudHtmlIsPanel(info);
    PanelTags(NameShown(info), FeaturesHtml(FeaturesShown(info)), LimitsHtml(LimitsShown(info)));
    FeaturesHtmlTags(FeaturesShown(info));
    LimitsHtmlTags(LimitsShown(info));
  }

  // ---------------------------------------------------------------- what the panel shows

  /** `x` occurs in `s` at index `i`. */
  predicate SliceAt(x: string, s: string, i: int)
  {
    0 <= i <= |s| - |x| && s[i..i + |x|] == x
  }

  /** `x` occurs in `s`. */
  ghost predicate Within(x: string, s: string)
  {
    exists i :: SliceAt(x, s, i)
  }

  lemma WithinSelf(x: string)
    ensures Within(x, x)
  {
    assert SliceAt(x, x, 0);
  }

  lemma WithinLeft(x: string, a: string, b: string)
    requires Within(x, a)
    ensures Within(x, a + b)
  {
    var i :| SliceAt(x, a, i);
    assert (a + b)[i..i + |x|] == a[i..i + |x|];
    assert SliceAt(x, a + b, i);
  }

  lemma WithinRight(x: string, a: string, b: string)
    requires Within(x, b)
    ensures Within(x, a + b)
  {
    var i :| SliceAt(x, b, i);
    assert (a + b)[|a| + i..|a| + i + |x|] == b[i..i + |x|];
    assert SliceAt(x, a + b, |a| + i);
  }

  lemma WithinTrans(x: string, y: string, s: string)
    requires Within(x, y) && Within(y, s)
    ensures Within(x, s)
  {
    var i :| SliceAt(x, y, i);
    var j :| SliceAt(y, s, j);
    forall q | 0 <= q < |x|
      ensures s[j + i + q] == x[q]
    {
      assert s[j + i + q] == s[j..j + |y|][i + q];
      assert x[q] == y[i..i + |x|][q];
    }
    assert s[j + i..j + i + |x|] == x;
    assert SliceAt(x, s, j + i);
  }

  /** `x` occurs in a template line holding it. */
  lemma WithinLine(x: string, rest: string)
    ensures Within(x, Line(x) + rest)
  {
    WithinSelf(x);
    WithinRight(x, "\n  ", x);
    WithinLeft(x, Line(x), rest);
  }

  /** The inner text of an element occurs in it. */
  lemma WithinElement(tag: string, cls: string, inner: string)
    ensures Within(inner, Element(tag, cls, inner))
  {
    WithinSelf(inner);
    WithinRight(inner, Open(tag, cls), inner);
    WithinLeft(inner, Open(tag, cls) + inner, Close(tag));
  }

  /** The name line and both sections occur in the panel, the name escaped. */
  lemma PanelOfShows(w: Words, name: string, f: string, l: string)
    ensures Within(Element(w.tag, w.nameClass, EscapeHtml(name)), PanelOf(w, name, f, l))
    ensures Within(f, PanelOf(w, name, f, l))
    ensures Within(l, PanelOf(w, name, f, l))
  {
    var n := Element(w.tag, w.nameClass, EscapeHtml(name));
    var open, t := Open(w.tag, w.panel), Line(Element(w.tag, w.titleClass, w.title));
    var sf, sl := Line(Element(w.tag, w.sectionClass, w.features)), Line(Element(w.tag, w.sectionClass, w.limits));
    var tail := Line(Element(w.tag, w.hintClass, Hint(w))) + ("\n" + Close(w.tag));
    var fromL := Line(l) + tail;
    var fromSl := sl + fromL;
    var fromF := Line(f) + fromSl;
    var fromSf := sf + fromF;
    var fromN := Line(n) + fromSf;
    assert PanelOf(w, name, f, l) == open + (t + fromN);
    WithinLine(l, tail);
    WithinRight(l, sl, fromL);
    WithinLine(f, fromSl);
    WithinRight(l, Line(f), fromSl);
    WithinRight(f, sf, fromF);
    WithinRight(l, sf, fromF);
    WithinLine(n, fromSf);
    WithinRight(f, Line(n), fromSf);
    WithinRight(l, Line(n), fromSf);
    WithinRight(n, t, fromN);
    WithinRight(f, t, fromN);
    WithinRight(l, t, fromN);
    WithinRight(n, open, t + fromN);
    WithinRight(f, open, t + fromN);
    WithinRight(l, open, t + fromN);
  }

  /** Every feature's escaped list item occurs in the list. */
  lemma {:induction false} FeatureItemsShow(fs: seq<string>, k: nat)
    requires k < |fs|
    ensures Within(PlainElement("li", EscapeHtml(fs[k])), FeatureItems(fs))
  {
    var item := PlainElement("li", EscapeHtml(fs[0]));
    assert FeatureItems(fs) == item + FeatureItems(fs[1..]);
    if k == 0 {
      WithinSelf(item);
      WithinLeft(item, item, FeatureItems(fs[1..]));
    } else {
      FeatureItemsShow(fs[1..], k - 1);
      assert fs[1..][k - 1] == fs[k];
      WithinRight(PlainElement("li", EscapeHtml(fs[k])), item, FeatureItems(fs[1..]));
    }
  }

  /** Every limit's row, its key escaped, occurs in the table body. */
  lemma {:induction false} LimitRowsShow(ls: seq<(string, int)>, k: nat)
    requires k < |ls|
    ensures Within(LimitRow(ls[k].0, ls[k].1), LimitRows(ls))
  {
    var row := LimitRow(ls[0].0, ls[0].1);
    assert LimitRows(ls) == row + LimitRows(ls[1..]);
    if k == 0 {
      WithinSelf(row);
      WithinLeft(row, row, LimitRows(ls[1..]));
    } else {
      LimitRowsShow(ls[1..], k - 1);
      assert ls[1..][k - 1] == ls[k];
      WithinRight(LimitRow(ls[k].0, ls[k].1), row, LimitRows(ls[1..]));
    }
  }

  /** A page holding the features section holds an escaped item per feature. */
  lemma FeaturesShow(fs: seq<string>, h: string)
    requires Within(FeaturesHtml(fs), h)
    ensures forall k | 0 <= k < |fs| :: Within(PlainElement("li", EscapeHtml(fs[k])), h)
  {
    forall k | 0 <= k < |fs|
      ensures Within(PlainElement("li", EscapeHtml(fs[k])), h)
    {
      FeatureItemsShow(fs, k);
      WithinElement("ul", "hud-features", FeatureItems(fs));
      WithinTrans(PlainElement("li", EscapeHtml(fs[k])), FeatureItems(fs), FeaturesHtml(fs));
      WithinTrans(PlainElement("li", EscapeHtml(fs[k])), FeaturesHtml(fs), h);
    }
  }

  /** A page holding the limits section holds a row per limit. */
  lemma LimitsShow(ls: seq<(string, int)>, h: string)
    requires Within(LimitsHtml(ls), h)
    ensures forall k | 0 <= k < |ls| :: Within(LimitRow(ls[k].0, ls[k].1), h)
  {
    forall k | 0 <= k < |ls|
      ensures Within(LimitRow(ls[k].0, ls[k].1), h)
    {
      LimitRowsShow(ls, k);
      WithinElement("table", "hud-limits", LimitRows(ls));
      WithinTrans(LimitRow(ls[k].0, ls[k].1), LimitRows(ls), LimitsHtml(ls));
      WithinTrans(LimitRow(ls[k].0, ls[k].1), LimitsHtml(ls), h);
    }
  }

  /**
   * The panel shows the escaped name, an escaped item per feature and a row
   * per limit with its key escaped, and the `(none)` placeholder for an empty section.
   */
  lemma HudShows(info: Option<HudInfo>)
    ensures Within(Element("div", "hud-name", EscapeHtml(NameShown(info))), HudHtml(info))
    ensures forall k | 0 <= k < |FeaturesShown(info)| ::
              Within(PlainElement("li", EscapeHtml(FeaturesShown(info)[k])), HudHtml(info))
    ensures forall k | 0 <= k < |LimitsShown(info)| ::
              Within(LimitRow(LimitsShown(info)[k].0, LimitsShown(info)[k].1), HudHtml(info))
    ensures FeaturesShown(info) == [] ==> Within(FeaturesHtml([]), HudHtml(info))
    ensures LimitsShown(info) == [] ==> Within(LimitsHtml([]), HudHtml(info))
  {
    var fs, ls := FeaturesShown(info), LimitsShown(info);
    HudHtmlIsPanel(info);
    PanelOfShows(HUD_WORDS, NameShown(info), FeaturesHtml(fs), LimitsHtml(ls));
    FeaturesShow(fs, HudHtml(info));
    LimitsShow(ls, HudHtml(info));
  }
}
