/**
 * The document half of the HTML renderer (pkg/ui/html/htmlui.go): the line-based HTML parser,
 * the CSS parser, the layering of tag, class and id styles onto an element, and the lookup
 * by id. Drawing is not part of this model.
 */
module HtmlUi {
  import opened Wrappers
  import opened Strings

  /** What the parser reads off one line: the fields of Go `HTMLElement` it fills in. */
  datatype ElementSpec = ElementSpec(Tag: string, ID: string, Class: string, Content: string)

  const IdKey: string := "id=\""
  const ClassKey: string := "class=\""

  /** Slicing the attribute value does not panic: a quote closes it. */
  predicate AttrClosed(t: string, key: string)
  {
    match Index(t, key)
    case None => true
    case Some(i) => IndexOf(t[i + |key|..], '"').Some?
  }

  /**
   * The attribute value: the text after the first key up to the next quote, or "" when the
   * key does not occur.
   */
  function Attr(t: string, key: string): string
    requires AttrClosed(t, key)
  {
    if Index(t, key).None? then "" else UpToQuote(t, Index(t, key).value + |key|)
  }

  /** The text from s up to the next quote. */
  function UpToQuote(t: string, s: nat): string
    requires s <= |t| && IndexOf(t[s..], '"').Some?
  {
    t[s..s + IndexOf(t[s..], '"').value]
  }

  /** The value is "" when the key does not occur. */
  lemma AttrAbsent(t: string, key: string)
    requires Index(t, key).None?
    ensures AttrClosed(t, key) && Attr(t, key) == ""
  {
  }

  /**
   * When the key first occurs at i, the value starts right after it, holds no quote, and a
   * quote follows it.
   */
  lemma AttrSpec(t: string, key: string, i: nat)
    requires AttrClosed(t, key) && Index(t, key) == Some(i)
    ensures var s := i + |key|;
      var r := Attr(t, key);
      && s + |r| < |t| && t[s + |r|] == '"' && '"' !in r
      && forall j :: 0 <= j < |r| ==> r[j] == t[s + j]
  {
    UpToQuoteSpec(t, i + |key|);
  }

  /** The text from s up to the next quote holds no quote, and a quote follows it. */
  lemma UpToQuoteSpec(t: string, s: nat)
    requires s <= |t| && IndexOf(t[s..], '"').Some?
    ensures var r := UpToQuote(t, s);
      && s + |r| < |t| && t[s + |r|] == '"' && '"' !in r
      && forall j :: 0 <= j < |r| ==> r[j] == t[s + j]
  {
    var e := IndexOf(t[s..], '"').value;
    assert forall j :: 0 <= j < e ==> t[s..s + e][j] == t[s..][j];
  }

  /** Slicing the content does not panic: the first `>` is not after the first `</`. */
  predicate ContentOrdered(t: string)
  {
    match (IndexOf(t, '>'), Index(t, "</"))
    case (Some(a), Some(b)) => a + 1 <= b
    case _ => true
  }

  /**
   * The content: when both `>` and `</` occur, the text from after the first `>` up to the
   * first `</`; otherwise "".
   */
  function Content(t: string): string
    requires ContentOrdered(t)
  {
    match (IndexOf(t, '>'), Index(t, "</"))
    case (Some(a), Some(b)) => t[a + 1..b]
    case _ => ""
  }

  /**
   * Without a `>` or without a `</` the content is ""; with both, the line is the text before
   * its first `>`, that `>`, the content, and the rest from its first `</`.
   */
  lemma ContentSpec(t: string)
    requires ContentOrdered(t)
    ensures IndexOf(t, '>').None? || Index(t, "</").None? ==> Content(t) == ""
    ensures IndexOf(t, '>').Some? && Index(t, "</").Some? ==>
      var a := IndexOf(t, '>').value;
      var b := Index(t, "</").value;
      && t == t[..a] + ">" + Content(t) + t[b..]
      && '>' !in t[..a]
      && OccursAt(t, "</", b)
  {
    if IndexOf(t, '>').Some? && Index(t, "</").Some? {
      Around(t, IndexOf(t, '>').value, Index(t, "</").value);
    }
  }

  /** A string is what lies before a, the `>` at a, what lies between, and what follows b. */
  lemma Around(t: string, a: nat, b: nat)
    requires a + 1 <= b <= |t| && t[a] == '>'
    ensures t == t[..a] + ">" + t[a + 1..b] + t[b..]
  {
    assert t[..a + 1] == t[..a] + ">";
    assert t[..b] == t[..a + 1] + t[a + 1..b];
    assert t == t[..b] + t[b..];
  }

  /** The parser does not panic on this trimmed line. */
  predicate SafeLine(t: string)
  {
    if HasPrefix(t, "<div") then AttrClosed(t, IdKey) && AttrClosed(t, ClassKey) && ContentOrdered(t)
    else if HasPrefix(t, "<button") then AttrClosed(t, IdKey) && ContentOrdered(t)
    else true
  }

  /** A trimmed line opening a div or a button. */
  predicate TagLine(t: string)
  {
    HasPrefix(t, "<div") || HasPrefix(t, "<button")
  }

  /**
   * The element a trimmed line yields: a div (with id, class and content) or a button (with
   * id and content, no class), and nothing for any other line.
   */
  function LineElement(t: string): (r: Option<ElementSpec>)
    requires SafeLine(t)
    ensures r.Some? <==> TagLine(t)
    ensures r.Some? ==> r.value.Tag == (if HasPrefix(t, "<div") then "div" else "button")
    ensures r.Some? ==> r.value.ID == Attr(t, IdKey) && r.value.Content == Content(t)
    ensures r.Some? && r.value.Tag == "div" ==> r.value.Class == Attr(t, ClassKey)
    ensures r.Some? && r.value.Tag == "button" ==> r.value.Class == ""
  {
    if HasPrefix(t, "<div") then
      Some(ElementSpec("div", Attr(t, IdKey), Attr(t, ClassKey), Content(t)))
    else if HasPrefix(t, "<button") then
      Some(ElementSpec("button", Attr(t, IdKey), "", Content(t)))
    else None
  }

  predicate SafeLines(lines: seq<string>)
  {
    forall k {:trigger SafeLine(TrimSpace(lines[k]))} :: 0 <= k < |lines| ==> SafeLine(TrimSpace(lines[k]))
  }

  function OptSeq<T>(o: Option<T>): seq<T>
  {
    if o.Some? then [o.value] else []
  }

  /** The values f keeps, in order: the shape of each parser's `for ... { if ... continue }` loop. */
  function Collect<A, B>(f: A -> Option<B>, xs: seq<A>): (r: seq<B>)
    ensures |r| <= |xs|
  {
    if xs == [] then [] else Collect(f, xs[..|xs| - 1]) + OptSeq(f(xs[|xs| - 1]))
  }

  /** Every collected value is what f keeps of some piece. */
  lemma {:induction false} CollectFrom<A, B>(f: A -> Option<B>, xs: seq<A>)
    ensures forall y :: y in Collect(f, xs) ==> exists x :: x in xs && f(x) == Some(y)
    decreases |xs|
  {
    if xs != [] {
      var init := xs[..|xs| - 1];
      CollectFrom(f, init);
      assert forall x :: x in init ==> x in xs;
    }
  }

  /** Collecting runs piece by piece: over two runs of pieces it gives the values of each. */
  lemma {:induction false} CollectAppend<A, B>(f: A -> Option<B>, a: seq<A>, b: seq<A>)
    ensures Collect(f, a + b) == Collect(f, a) + Collect(f, b)
    decreases |b|
  {
    if b == [] {
      assert a + b == a;
    } else {
      var b' := b[..|b| - 1];
      assert (a + b)[..|a + b| - 1] == a + b';
      assert (a + b)[|a + b| - 1] == b[|b| - 1];
      CollectAppend(f, a, b');
    }
  }

  /** The element of one raw line; a line the parser would panic on never reaches here. */
  function LineOf(line: string): Option<ElementSpec>
  {
    var t := TrimSpace(line);
    if SafeLine(t) then LineElement(t) else None
  }

  /** The elements of the lines, in line order; at most one per line. */
  function ParseLines(lines: seq<string>): (r: seq<ElementSpec>)
    requires SafeLines(lines)
    ensures |r| <= |lines|
  {
    Collect(LineOf, lines)
  }

  /** Every parsed element is a div or a button, and only a div has a class. */
  lemma ParseLinesTags(lines: seq<string>)
    requires SafeLines(lines)
    ensures forall e :: e in ParseLines(lines) ==> (e.Tag == "div" || e.Tag == "button") && (e.Tag == "button" ==> e.Class == "")
  {
    CollectFrom(LineOf, lines);
  }

  /** The source does not make the parser panic. */
  predicate SafeHtml(html: string)
  {
    SafeLines(Split(html, '\n'))
  }

  /** Every element is a div or a button, and only a div has a class. */
  predicate DivsAndButtons(es: seq<ElementSpec>)
  {
    forall e :: e in es ==> (e.Tag == "div" || e.Tag == "button") && (e.Tag == "button" ==> e.Class == "")
  }

  /**
   * Go `parseHTML`: at most one element per line of the document, each a div or a button,
   * and a button never with a class.
   */
  function ParseHtml(html: string): (r: seq<ElementSpec>)
    requires SafeHtml(html)
    ensures |r| <= |Split(html, '\n')|
    ensures DivsAndButtons(r)
  {
    ParseLinesTags(Split(html, '\n'));
    ParseLines(Split(html, '\n'))
  }

  /** Parsing runs line by line: the elements of two blocks of lines are those of each. */
  lemma ParseLinesAppend(a: seq<string>, b: seq<string>)
    requires SafeLines(a) && SafeLines(b)
    ensures SafeLines(a + b)
    ensures ParseLines(a + b) == ParseLines(a) + ParseLines(b)
  {
    forall k | 0 <= k < |a + b| ensures SafeLine(TrimSpace((a + b)[k])) {
      if k < |a| {
        assert (a + b)[k] == a[k] && SafeLine(TrimSpace(a[k]));
      } else {
        assert (a + b)[k] == b[k - |a|] && SafeLine(TrimSpace(b[k - |a|]));
      }
    }
    CollectAppend(LineOf, a, b);
  }

  /** A single line yields its element when it opens a div or a button, and nothing otherwise. */
  lemma ParseOneLine(line: string)
    requires SafeLine(TrimSpace(line))
    ensures SafeLines([line])
    ensures ParseLines([line]) == OptSeq(LineElement(TrimSpace(line)))
    ensures |ParseLines([line])| == 1 <==> TagLine(TrimSpace(line))
  {
    assert [line][..0] == [];
    assert Collect(LineOf, [line]) == OptSeq(LineOf(line));
    assert LineOf(line) == LineElement(TrimSpace(line));
  }

  /**
   * Two blocks of HTML joined by a newline parse to the elements of the first followed by
   * those of the second: elements come out in line order.
   */
  lemma ParseHtmlAppend(h1: string, h2: string)
    requires SafeHtml(h1) && SafeHtml(h2)
    ensures SafeHtml(h1 + "\n" + h2)
    ensures ParseHtml(h1 + "\n" + h2) == ParseHtml(h1) + ParseHtml(h2)
  {
    SplitAround(h1, '\n', h2);
    ParseLinesAppend(Split(h1, '\n'), Split(h2, '\n'));
  }

  /** A map built from entries in order, a later entry for a key replacing an earlier one. */
  function LastWins<K, V>(entries: seq<(K, V)>): map<K, V>
  {
    if entries == [] then map[]
    else LastWins(entries[..|entries| - 1])[entries[|entries| - 1].0 := entries[|entries| - 1].1]
  }

  /** A key is in the map iff some entry has it, and it maps to the value of its last entry. */
  lemma {:induction false} LastWinsSpec<K, V>(entries: seq<(K, V)>, k: K)
    ensures k in LastWins(entries) <==> exists i :: 0 <= i < |entries| && entries[i].0 == k
    ensures forall i :: 0 <= i < |entries| && entries[i].0 == k && (forall j :: i < j < |entries| ==> entries[j].0 != k) ==>
      LastWins(entries)[k] == entries[i].1
    decreases |entries|
  {
    if entries != [] {
      var n := |entries| - 1;
      var init := entries[..n];
      LastWinsSpec(init, k);
      assert forall i :: 0 <= i < n ==> init[i] == entries[i];
      if entries[n].0 != k {
        assert (exists i :: 0 <= i < |entries| && entries[i].0 == k) ==> (exists i :: 0 <= i < n && init[i].0 == k);
      }
    }
  }

  /**
   * One CSS declaration: kept only when the trimmed text holds exactly one `:`, as the
   * trimmed texts before and after it.
   */
  function DeclEntry(prop: string): (r: Option<(string, string)>)
    ensures r.Some? <==> TrimSpace(prop) != "" && multiset(TrimSpace(prop))[':'] == 1
    ensures r.Some? ==> Trimmed(r.value.0) && Trimmed(r.value.1)
  {
    var t := TrimSpace(prop);
    SplitCount(t, ':');
    if t == "" then None
    else
      var parts := Split(t, ':');
      if |parts| != 2 then None
      else Some((TrimSpace(parts[0]), TrimSpace(parts[1])))
  }

  /**
   * A kept declaration is the trimmed text before its one `:` mapped to the trimmed text
   * after it.
   */
  lemma DeclEntrySplits(prop: string)
    requires DeclEntry(prop).Some?
    ensures var t := TrimSpace(prop);
      && IndexOf(t, ':').Some?
      && var i := IndexOf(t, ':').value;
      && ':' !in t[..i] && ':' !in t[i + 1..]
      && DeclEntry(prop).value == (TrimSpace(t[..i]), TrimSpace(t[i + 1..]))
  {
    var t := TrimSpace(prop);
    SplitCount(t, ':');
    SplitAt(t, ':', IndexOf(t, ':').value);
  }

  /** The kept declarations, in order. */
  function DeclEntries(props: seq<string>): seq<(string, string)>
  {
    Collect(DeclEntry, props)
  }

  /** The declarations of one rule body, split on `;`, a later duplicate key winning. */
  function DeclMap(properties: string): map<string, string>
  {
    LastWins(DeclEntries(Split(properties, ';')))
  }

  /**
   * One `}`-separated CSS chunk: kept only when its trimmed text holds a `{`, as the trimmed
   * selector before the first `{` and the declarations after it.
   */
  function ChunkEntry(part: string): (r: Option<(string, map<string, string>)>)
    ensures r.Some? <==> '{' in TrimSpace(part)
    ensures r.Some? ==> Trimmed(r.value.0)
  {
    var t := TrimSpace(part);
    match IndexOf(t, '{')
    case None => None
    case Some(i) => Some((TrimSpace(t[..i]), DeclMap(TrimSpace(t[i + 1..]))))
  }

  /**
   * A kept chunk is the trimmed text before its first `{` (the selector, which so holds no
   * `{`) with the declarations of the text after it.
   */
  lemma ChunkEntrySplits(part: string)
    requires ChunkEntry(part).Some?
    ensures '{' !in ChunkEntry(part).value.0
    ensures var t := TrimSpace(part);
      && IndexOf(t, '{').Some?
      && var i := IndexOf(t, '{').value;
      && t[i] == '{' && '{' !in t[..i]
      && ChunkEntry(part).value == (TrimSpace(t[..i]), DeclMap(TrimSpace(t[i + 1..])))
  {
    var t := TrimSpace(part);
    var i := ChunkBrace(t);
    SelectorFree(t[..i]);
  }

  /** The chunk's text holds a first `{`, at i, and nothing before it is a `{`. */
  lemma ChunkBrace(t: string) returns (i: nat)
    requires '{' in t
    ensures IndexOf(t, '{') == Some(i)
    ensures i < |t| && t[i] == '{' && '{' !in t[..i]
  {
    i := IndexOf(t, '{').value;
    assert forall j :: 0 <= j < i ==> t[..i][j] == t[j];
  }

  /** Trimming a text without `{` leaves none. */
  lemma SelectorFree(s: string)
    requires '{' !in s
    ensures '{' !in TrimSpace(s)
  {
    TrimSpaceWithin(s);
  }

  /** The kept chunks, in order. */
  function CssEntries(parts: seq<string>): seq<(string, map<string, string>)>
  {
    Collect(ChunkEntry, parts)
  }

  /** The chunks parseCSS looks at: the trimmed stylesheet split at each `}`. */
  function CssChunks(css: string): seq<string>
  {
    Split(TrimSpace(css), '}')
  }

  /** sel is the selector of one of the kept chunks. */
  predicate ChunkSelector(parts: seq<string>, sel: string)
  {
    exists part :: part in parts && ChunkEntry(part).Some? && ChunkEntry(part).value.0 == sel
  }

  /** v is what the last entry with key k carries. */
  ghost predicate LastEntry<K, V>(es: seq<(K, V)>, k: K, v: V)
  {
    exists i :: 0 <= i < |es| && es[i].0 == k && es[i].1 == v && forall j :: i < j < |es| ==> es[j].0 != k
  }

  /**
   * Go `parseCSS`: each kept chunk sets its selector's declarations, a later chunk replacing.
   * The selectors are exactly those of the chunks holding a `{`; each is trimmed and holds
   * no `{`; each maps to the declarations of its last chunk.
   */
  function ParseCss(css: string): (r: map<string, map<string, string>>)
    ensures forall sel :: sel in r ==> Trimmed(sel) && '{' !in sel
    ensures forall sel :: sel in r <==> ChunkSelector(CssChunks(css), sel)
    ensures forall sel :: sel in r ==> LastEntry(CssEntries(CssChunks(css)), sel, r[sel])
  {
    CssSelectors(CssChunks(css));
    LastWins(CssEntries(CssChunks(css)))
  }

  /** The selectors of the kept chunks, which the last-wins map has as its keys. */
  lemma CssSelectors(parts: seq<string>)
    ensures forall sel :: sel in LastWins(CssEntries(parts)) ==> Trimmed(sel) && '{' !in sel
    ensures forall sel :: sel in LastWins(CssEntries(parts)) <==> ChunkSelector(parts, sel)
    ensures forall sel :: sel in LastWins(CssEntries(parts)) ==> LastEntry(CssEntries(parts), sel, LastWins(CssEntries(parts))[sel])
  {
    forall sel | sel in LastWins(CssEntries(parts))
      ensures Trimmed(sel) && '{' !in sel && ChunkSelector(parts, sel)
      ensures LastEntry(CssEntries(parts), sel, LastWins(CssEntries(parts))[sel])
    {
      KeyFromChunk(parts, sel);
      KeyLast(CssEntries(parts), sel);
    }
    forall sel | ChunkSelector(parts, sel)
      ensures sel in LastWins(CssEntries(parts))
    {
      ChunkKey(parts, sel);
    }
  }

  /** A key of the last-wins map carries the value of its last entry. */
  lemma KeyLast<K, V>(es: seq<(K, V)>, k: K)
    requires k in LastWins(es)
    ensures LastEntry(es, k, LastWins(es)[k])
  {
    LastWinsSpec(es, k);
    var i :| 0 <= i < |es| && es[i].0 == k;
    LastOf(es, k, i);
  }

  /** The selector of a kept chunk is a key of the last-wins map. */
  lemma ChunkKey(parts: seq<string>, sel: string)
    requires ChunkSelector(parts, sel)
    ensures sel in LastWins(CssEntries(parts))
  {
    var part :| part in parts && ChunkEntry(part).Some? && ChunkEntry(part).value.0 == sel;
    CollectTo(ChunkEntry, parts, part);
    EntryKey(CssEntries(parts), ChunkEntry(part).value);
  }

  /** The key of every entry is a key of the last-wins map. */
  lemma EntryKey<K, V>(es: seq<(K, V)>, e: (K, V))
    requires e in es
    ensures e.0 in LastWins(es)
  {
    LastWinsSpec(es, e.0);
    var k :| 0 <= k < |es| && es[k] == e;
  }

  /** A key of the last-wins map comes from a kept chunk, whose selector is trimmed and `{`-free. */
  lemma KeyFromChunk(parts: seq<string>, sel: string)
    requires sel in LastWins(CssEntries(parts))
    ensures Trimmed(sel) && '{' !in sel && ChunkSelector(parts, sel)
  {
    var es := CssEntries(parts);
    LastWinsSpec(es, sel);
    var i :| 0 <= i < |es| && es[i].0 == sel;
    assert es[i] in es;
    CollectFrom(ChunkEntry, parts);
    var part :| part in parts && ChunkEntry(part) == Some(es[i]);
    ChunkEntrySplits(part);
  }

  /** A key that occurs at i also occurs last somewhere at or after i, with the map's value. */
  lemma LastOf<K, V>(es: seq<(K, V)>, k: K, i: nat)
    requires i < |es| && es[i].0 == k
    ensures k in LastWins(es) && LastEntry(es, k, LastWins(es)[k])
    decreases |es| - i
  {
    LastWinsSpec(es, k);
    if forall j :: i < j < |es| ==> es[j].0 != k {
      assert es[i].1 == LastWins(es)[k];
    } else {
      var j :| i < j < |es| && es[j].0 == k;
      LastOf(es, k, j);
    }
  }

  /** What f keeps of a piece is among the collected values. */
  lemma {:induction false} CollectTo<A, B>(f: A -> Option<B>, xs: seq<A>, x: A)
    requires x in xs && f(x).Some?
    ensures f(x).value in Collect(f, xs)
    decreases |xs|
  {
    var init := xs[..|xs| - 1];
    if x != xs[|xs| - 1] {
      assert x in init;
      CollectTo(f, init, x);
    }
  }

  /**
   * Go's `for key, value := range layer { style[key] = value }`, as a value: the keys of
   * both, the layer's value where it has one and the base's elsewhere.
   */
  function Overlay(base: map<string, string>, layer: map<string, string>): (r: map<string, string>)
    ensures r.Keys == base.Keys + layer.Keys
    ensures forall k :: k in layer ==> r[k] == layer[k]
    ensures forall k :: k in base && k !in layer ==> r[k] == base[k]
  {
    map k | k in base.Keys + layer.Keys :: if k in layer then layer[k] else base[k]
  }

  /** The declarations of a selector, none when the stylesheet does not have it. */
  function Layer(styles: map<string, map<string, string>>, selector: string): map<string, string>
  {
    if selector in styles then styles[selector] else map[]
  }

  function ClassLayer(styles: map<string, map<string, string>>, cls: string): map<string, string>
  {
    if cls != "" then Layer(styles, "." + cls) else map[]
  }

  function IdLayer(styles: map<string, map<string, string>>, id: string): map<string, string>
  {
    if id != "" then Layer(styles, "#" + id) else map[]
  }

  /** The style after applyStyles: the tag's rule, then `.class`, then `#id`, over the old style. */
  function Styled(styles: map<string, map<string, string>>, style: map<string, string>, tag: string, cls: string, id: string): (r: map<string, string>)
    ensures r.Keys == style.Keys + Layer(styles, tag).Keys + ClassLayer(styles, cls).Keys + IdLayer(styles, id).Keys
  {
    Overlay(Overlay(Overlay(style, Layer(styles, tag)), ClassLayer(styles, cls)), IdLayer(styles, id))
  }

  /**
   * The id rule beats the class rule, which beats the tag rule, which beats the old style;
   * a key no applicable rule mentions keeps its old value, or stays absent.
   */
  lemma StyledPrecedence(styles: map<string, map<string, string>>, style: map<string, string>, tag: string, cls: string, id: string, k: string)
    ensures var r := Styled(styles, style, tag, cls, id);
      var t := Layer(styles, tag);
      var c := ClassLayer(styles, cls);
      var i := IdLayer(styles, id);
      && (k in i ==> k in r && r[k] == i[k])
      && (k !in i && k in c ==> k in r && r[k] == c[k])
      && (k !in i && k !in c && k in t ==> k in r && r[k] == t[k])
      && (k !in i && k !in c && k !in t ==> (k in r <==> k in style) && (k in style ==> r[k] == style[k]))
  {
  }

  /** Go `HTMLElement`, without its layout fields and its (never filled) children. */
  class HtmlElement {
    const Tag: string
    const ID: string
    const Class: string
    const Content: string
    var Style: map<string, string>

    /** A parsed element, with an empty style. */
    constructor (spec: ElementSpec)
      ensures Spec() == spec && Style == map[]
    {
      Tag := spec.Tag;
      ID := spec.ID;
      Class := spec.Class;
      Content := spec.Content;
      Style := map[];
    }

    function Spec(): ElementSpec
    {
      ElementSpec(Tag, ID, Class, Content)
    }

    /** Writes every declaration of layer into the style, overriding the keys it has. */
    method Merge(layer: map<string, string>)
      modifies this
      ensures Style == Overlay(old(Style), layer)
    {
      var todo := layer.Keys;
      while todo != {}
        invariant todo <= layer.Keys
        invariant forall k :: k in Style <==> k in old(Style) || (k in layer && k !in todo)
        invariant forall k :: k in Style ==> Style[k] == if k in layer && k !in todo then layer[k] else old(Style)[k]
        decreases todo
      {
        var key :| key in todo;
        Style := Style[key := layer[key]];
        todo := todo - {key};
      }
      assert Style.Keys == old(Style).Keys + layer.Keys;
    }
  }

  /** The index of the first element with the id, or None when no element has it. */
  function FindElement(elements: seq<HtmlElement>, id: string): (r: Option<nat>)
    ensures r.Some? ==> r.value < |elements| && elements[r.value].ID == id
    ensures r.Some? ==> forall j :: 0 <= j < r.value ==> elements[j].ID != id
    ensures r.None? <==> forall j :: 0 <= j < |elements| ==> elements[j].ID != id
  {
    if elements == [] then None
    else if elements[0].ID == id then Some(0)
    else
      match FindElement(elements[1..], id)
      case None => None
      case Some(k) => Some(k + 1)
  }

  /** Go `HTMLRenderer`, without its text renderer. */
  class HtmlRenderer {
    var elements: seq<HtmlElement>
    var styles: map<string, map<string, string>>

    constructor ()
      ensures elements == [] && styles == map[]
    {
      elements := [];
      styles := map[];
    }

    /** Replaces the elements with fresh ones, one per parsed element, in order, unstyled. */
    method LoadHtml(html: string)
      requires SafeHtml(html)
      modifies this
      ensures |elements| == |ParseHtml(html)|
      ensures forall k :: 0 <= k < |elements| ==>
        fresh(elements[k]) && elements[k].Spec() == ParseHtml(html)[k] && elements[k].Style == map[]
      ensures styles == old(styles)
    {
      var specs := ParseHtml(html);
      elements := NewElements(specs);
    }

    /** The `for` loop of `LoadHTML` that builds one element per parsed line. */
    static method NewElements(specs: seq<ElementSpec>) returns (els: seq<HtmlElement>)
      ensures |els| == |specs|
      ensures forall k :: 0 <= k < |els| ==> fresh(els[k]) && els[k].Spec() == specs[k] && els[k].Style == map[]
    {
      els := [];
      for i := 0 to |specs|
        invariant |els| == i
        invariant forall k :: 0 <= k < i ==> fresh(els[k]) && els[k].Spec() == specs[k] && els[k].Style == map[]
      {
        var el := new HtmlElement(specs[i]);
        els := els + [el];
      }
    }

    /** Replaces the stylesheet wholesale. */
    method LoadCss(css: string)
      modifies this
      ensures styles == ParseCss(css)
      ensures elements == old(elements)
    {
      styles := ParseCss(css);
    }

    /** Layers the tag rule, then the `.class` rule (when there is a class), then the `#id` rule. */
    method ApplyStyles(el: HtmlElement)
      modifies el
      ensures el.Style == Styled(styles, old(el.Style), el.Tag, el.Class, el.ID)
    {
      if el.Tag in styles {
        el.Merge(styles[el.Tag]);
      } else {
        assert Overlay(el.Style, map[]) == el.Style;
      }
      if el.Class != "" && "." + el.Class in styles {
        el.Merge(styles["." + el.Class]);
      } else {
        assert Overlay(el.Style, map[]) == el.Style;
      }
      if el.ID != "" && "#" + el.ID in styles {
        el.Merge(styles["#" + el.ID]);
      } else {
        assert Overlay(el.Style, map[]) == el.Style;
      }
    }

    /** The first element with the id, or None (Go's nil). */
    function GetElementById(id: string): (r: Option<HtmlElement>)
      reads this
      ensures r.None? <==> forall k :: 0 <= k < |elements| ==> elements[k].ID != id
      ensures r.Some? ==> exists k ::
        && 0 <= k < |elements| && elements[k] == r.value && r.value.ID == id
        && forall j :: 0 <= j < k ==> elements[j].ID != id
    {
      match FindElement(elements, id)
      case None => None
      case Some(k) => Some(elements[k])
    }
  }
}
