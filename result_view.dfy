/** The pure parts of a result row: where activating it navigates to, its icon, and the
    key React tells rows apart by. */
module ResultView {
  import opened Wrappers
  import opened Items
  import JsNumber

  const Prefix: string := "https://deno.land/std/"

  /** `if (item.lineNumber)`: the line counts only when present and non-zero. */
  function LinkedLine(line: Option<int>): (r: Option<int>)
    ensures r.Some? ==> r == line && r.value != 0
    ensures r.None? ==> line.None? || line.value == 0
  {
    if line.Some? && line.value != 0 then line else None
  }

  /** The address goToItem sends the browser to. */
  function Url(item: SearchItem): (r: string)
    ensures |r| >= |Prefix| + |item.path|
    ensures r[..|Prefix|] == Prefix && r[|Prefix|..|Prefix| + |item.path|] == item.path
    ensures LinkedLine(item.lineNumber).None? <==> |r| == |Prefix| + |item.path|
    ensures LinkedLine(item.lineNumber).Some? ==>
      r[|Prefix| + |item.path|..] == "#L" + JsNumber.Text(item.lineNumber.value)
  {
    var base := Prefix + item.path;
    match LinkedLine(item.lineNumber)
    case Some(n) => base + "#L" + JsNumber.Text(n)
    case None => base
  }

  /** The index of the first `c` in `s`, or `|s|` when there is none. */
  function FirstIndex(s: string, c: char): (k: nat)
    ensures k <= |s|
    ensures k < |s| ==> s[k] == c
    ensures forall j :: 0 <= j < k ==> s[j] != c
  {
    if |s| == 0 then 0
    else if s[0] == c then 0
    else 1 + FirstIndex(s[1..], c)
  }

  /** Reads back the path and line of an address of the form Url builds. */
  function ParseUrl(url: string): Option<(string, Option<int>)> {
    if |url| < |Prefix| || url[..|Prefix|] != Prefix then None
    else
      var rest := url[|Prefix|..];
      var k := FirstIndex(rest, '#');
      if k == |rest| then Some((rest, None))
      else if k + 2 <= |rest| && rest[k + 1] == 'L' then
        match JsNumber.ParseInt(rest[k + 2..])
        case Some(n) => Some((rest[..k], Some(n)))
        case None => None
      else None
  }

  lemma FirstIndexOfSplit(p: string, q: string)
    requires '#' !in p && |q| > 0 && q[0] == '#'
    ensures FirstIndex(p + q, '#') == |p|
  {
    assert forall j :: 0 <= j < |p| ==> (p + q)[j] == p[j];
    assert (p + q)[|p|] == '#';
  }

  /** For a path without `#`, the address records exactly the path and the linked line. */
  lemma UrlRoundTrip(item: SearchItem)
    requires '#' !in item.path
    ensures ParseUrl(Url(item)) == Some((item.path, LinkedLine(item.lineNumber)))
  {
    var url := Url(item);
    assert url[..|Prefix|] == Prefix;
    var rest := url[|Prefix|..];
    match LinkedLine(item.lineNumber)
    case None =>
      assert rest == item.path;
    case Some(n) =>
      var t := JsNumber.Text(n);
      assert rest == item.path + ("#L" + t);
      FirstIndexOfSplit(item.path, "#L" + t);
      assert rest[|item.path| + 2..] == t;
      assert rest[..|item.path|] == item.path;
      JsNumber.TextRoundTrip(n);
  }

  /** Two rows with `#`-free paths navigate to the same address exactly when they share
      the path and the linked line. */
  lemma SameUrlIffSameTarget(a: SearchItem, b: SearchItem)
    requires '#' !in a.path && '#' !in b.path
    ensures Url(a) == Url(b) <==>
      a.path == b.path && LinkedLine(a.lineNumber) == LinkedLine(b.lineNumber)
  {
    UrlRoundTrip(a);
    UrlRoundTrip(b);
  }

  datatype Glyph = SymbolClass | SymbolMethod | SymbolEnum | Link | FileCode

  datatype Icon = Icon(glyph: Glyph, color: string)

  /** Kinds drawn with the generic file icon. */
  predicate IsGeneric(t: DenoItemType) {
    !(t.Class? || t.Function? || t.Enum? || t.TypeAlias?)
  }

  /** The icon and colour of a row; `darkMode` is the colour-scheme preference. */
  function IconFor(t: DenoItemType, darkMode: bool): (r: Icon)
    ensures r.glyph.SymbolClass? <==> t.Class?
    ensures r.glyph.SymbolMethod? <==> t.Function?
    ensures r.glyph.SymbolEnum? <==> t.Enum?
    ensures r.glyph.Link? <==> t.TypeAlias?
    ensures r.glyph.FileCode? <==> IsGeneric(t)
    ensures |r.color| > 0 && r.color[0] == '#'
  {
    match t
    case Class => Icon(SymbolClass, "#32a852")
    case Function => Icon(SymbolMethod, "#a468bf")
    case Enum => Icon(SymbolEnum, "#2fd5d5")
    case TypeAlias => Icon(Link, "#1e5fb3")
    case _ => Icon(FileCode, if darkMode then "#888" else "#323232")
  }

  /** The four special kinds each have their own icon, the other five share the file
      icon, and only the file icon follows the colour scheme. */
  lemma IconDistinguishesKinds(a: DenoItemType, b: DenoItemType, darkMode: bool)
    ensures IconFor(a, darkMode) == IconFor(b, darkMode) <==> a == b || (IsGeneric(a) && IsGeneric(b))
    ensures IconFor(a, true) != IconFor(a, false) <==> IsGeneric(a)
  {
  }

  /** `${lineNumber}`, which is "undefined" when the line is absent. */
  function LineText(line: Option<int>): (s: string)
    ensures '@' !in s
  {
    match line
    case Some(n) => JsNumber.Text(n)
    case None => "undefined"
  }

  /** The React key of a row. */
  function RowKey(item: SearchItem): (r: string)
    ensures |r| > |item.path| + 1 + |item.name| + |LineText(item.lineNumber)|
    ensures r[..|item.path| + 1] == item.path + "-"
    ensures r[|item.path| + 1..|item.path| + 1 + |item.name|] == item.name
    ensures r[|item.path| + 1 + |item.name|] == '-'
    ensures r[|r| - |LineText(item.lineNumber)| - 1..] == "@" + LineText(item.lineNumber)
  {
    item.path + "-" + item.name + "-" + TypeName(item.kind) + "@" + LineText(item.lineNumber)
  }

  /** Splitting at the last occurrence of a separator is unique. */
  lemma SplitAtLast(x1: string, y1: string, x2: string, y2: string, c: char)
    requires x1 + [c] + y1 == x2 + [c] + y2
    requires c !in y1 && c !in y2
    ensures x1 == x2 && y1 == y2
  {
    var s := x1 + [c] + y1;
    assert s == x2 + [c] + y2;
    // each split puts `c` just before its suffix, and nowhere inside it
    assert s[|x1|] == c && s[|x2|] == c;
    assert forall j :: |x1| < j < |s| ==> s[j] == y1[j - |x1| - 1];
    assert forall j :: |x2| < j < |s| ==> s[j] == y2[j - |x2| - 1];
    assert |x1| == |x2|;
    assert x1 == s[..|x1|] && x2 == s[..|x2|];
    assert y1 == s[|x1| + 1..] && y2 == s[|x2| + 1..];
  }

  lemma LineTextInjective(a: Option<int>, b: Option<int>)
    requires LineText(a) == LineText(b)
    ensures a == b
  {
    if a.Some? && b.Some? {
      JsNumber.TextInjective(a.value, b.value);
    }
  }

  /** A row key determines the kind and the line of its row, whatever the name and path
      hold, and among rows of one file it also determines the name. */
  lemma RowKeyDeterminesKindAndLine(a: SearchItem, b: SearchItem)
    requires RowKey(a) == RowKey(b)
    ensures a.kind == b.kind && a.lineNumber == b.lineNumber
    ensures a.path == b.path ==> a.name == b.name
  {
    var ha := a.path + "-" + a.name + "-" + TypeName(a.kind);
    var hb := b.path + "-" + b.name + "-" + TypeName(b.kind);
    assert RowKey(a) == ha + ['@'] + LineText(a.lineNumber);
    assert RowKey(b) == hb + ['@'] + LineText(b.lineNumber);
    SplitAtLast(ha, LineText(a.lineNumber), hb, LineText(b.lineNumber), '@');
    assert ha == (a.path + "-" + a.name) + ['-'] + TypeName(a.kind);
    assert hb == (b.path + "-" + b.name) + ['-'] + TypeName(b.kind);
    SplitAtLast(a.path + "-" + a.name, TypeName(a.kind), b.path + "-" + b.name, TypeName(b.kind), '-');
    TypeNameInjective(a.kind, b.kind);
    LineTextInjective(a.lineNumber, b.lineNumber);
    var k := |a.path| + 1;
    assert (a.path + "-" + a.name)[k..] == a.name;
    assert (b.path + "-" + b.name)[|b.path| + 1..] == b.name;
  }
}
