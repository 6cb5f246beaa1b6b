/**
 * The note text formatter of star-note-frontend/src/utils/formatText.js.
 *
 * `formatText` renders a small Markdown-like syntax as HTML in five passes, each the exact
 * behaviour of one regular expression of the source written out as a scan:
 *   bold     `**X**` -> `<strong>X</strong>`          (X the shortest run within one line)
 *   italic   lone `*X*` -> `<em>X</em>`                 (neither star next to another star)
 *   numbered runs of `1. x` lines -> one `<ol>` block   (a line scan with an in-list flag)
 *   bullet   runs of `- x` / `* x` lines -> `<ul>`      (the same scan)
 *   breaks   `\n` -> `<br>` unless a list tag follows
 * `stripFormatting` deletes the same markers, and `isWithinFormatting` tells the toolbar
 * whether the cursor sits in bold, italic or a list line.
 *
 * The passes that look behind a position (a lone `*`, a multiline `^`) are written over the
 * whole input and a position; the others over suffixes.
 */
module FormatText {
  import opened Wrappers
  import opened JsStrings
  import opened Seqs

  // ================================================================ bold: /\*\*(.*?)\*\*/g

  /** `**` at index `i`. */
  predicate DoubleStarAt(s: string, i: int) {
    0 <= i && i + 1 < |s| && s[i] == '*' && s[i + 1] == '*'
  }

  /**
   * Where the lazy group `(.*?)` started at `j` ends: the first `**` at or after `j`,
   * provided no line terminator comes before it (`.` does not match one).
   */
  function BoldClose(s: string, j: nat): (r: Option<nat>)
    requires j <= |s|
    ensures r.Some? ==> j <= r.value && DoubleStarAt(s, r.value) && NoTerminator(s, j, r.value)
    ensures r.Some? ==> forall k :: j <= k < r.value ==> !DoubleStarAt(s, k)
    ensures r.None? ==> forall q :: j <= q <= |s| && DoubleStarAt(s, q) ==> !NoTerminator(s, j, q)
    decreases |s| - j
  {
    if DoubleStarAt(s, j) then Some(j)
    else if j == |s| || IsLineTerminator(s[j]) then None
    else BoldClose(s, j + 1)
  }

  function Strong(x: string): string {
    "<strong>" + x + "</strong>"
  }

  /** The bold pass: every match of `\*\*(.*?)\*\*`, left to right, becomes `<strong>$1</strong>`. */
  function Bold(s: string): string
    decreases |s|
  {
    if s == [] then []
    else if DoubleStarAt(s, 0) && BoldClose(s, 2).Some? then
      var q := BoldClose(s, 2).value;
      Strong(s[2..q]) + Bold(s[q + 2..])
    else [s[0]] + Bold(s[1..])
  }

  /**
   * The regular expression's own meaning at a `**`: when some `**` follows on the same line,
   * the shortest such run X becomes `<strong>X</strong>` and the scan resumes after it.
   */
  lemma {:induction false} BoldAtPair(s: string, q: nat)
    requires DoubleStarAt(s, 0) && 2 <= q && DoubleStarAt(s, q) && NoTerminator(s, 2, q)
    requires forall k :: 2 <= k < q ==> !DoubleStarAt(s, k)
    ensures Bold(s) == Strong(s[2..q]) + Bold(s[q + 2..])
  {
    var r := BoldClose(s, 2);
    assert r.Some?;
    assert !(r.value < q);
  }

  /** ... and when no `**` follows on the same line, the `**` stays literal. */
  lemma {:induction false} BoldUnpaired(s: string)
    requires DoubleStarAt(s, 0)
    requires forall q :: 2 <= q <= |s| && DoubleStarAt(s, q) ==> !NoTerminator(s, 2, q)
    ensures Bold(s) == "*" + Bold(s[1..])
  {
    var r := BoldClose(s, 2);
    if r.Some? {
      assert false;
    }
  }

  /** No two stars side by side. */
  predicate NoDoubleStar(s: string) {
    forall k :: 0 <= k < |s| - 1 ==> !(s[k] == '*' && s[k + 1] == '*')
  }

  /** Text without `**` passes the bold pass unchanged. */
  lemma {:induction false} BoldNoDoubleStar(s: string)
    requires NoDoubleStar(s)
    ensures Bold(s) == s
    decreases |s|
  {
    if s != [] {
      assert NoDoubleStar(s[1..]) by {
        forall k | 0 <= k < |s[1..]| - 1
          ensures !(s[1..][k] == '*' && s[1..][k + 1] == '*')
        {
          assert s[1..][k] == s[k + 1] && s[1..][k + 1] == s[k + 2];
        }
      }
      BoldNoDoubleStar(s[1..]);
      assert [s[0]] + s[1..] == s;
    }
  }

  // ================================================================ italic

  /** A `*` with no `*` on either side: what `(?<!\*)\*(?!\*)` matches at `i`. */
  predicate LoneStarAt(s: string, i: int) {
    0 <= i < |s| && s[i] == '*' && (i == 0 || s[i - 1] != '*') && (i + 1 == |s| || s[i + 1] != '*')
  }

  /** Where the lazy group started at `j` ends: the first lone `*` at or after `j` on the same line. */
  function ItalicClose(s: string, j: nat): (r: Option<nat>)
    requires j <= |s|
    ensures r.Some? ==> j <= r.value < |s| && LoneStarAt(s, r.value) && NoTerminator(s, j, r.value)
    ensures r.Some? ==> forall k :: j <= k < r.value ==> !LoneStarAt(s, k)
    ensures r.None? ==> forall q :: j <= q < |s| && LoneStarAt(s, q) ==> !NoTerminator(s, j, q)
    decreases |s| - j
  {
    if j == |s| then None
    else if LoneStarAt(s, j) then Some(j)
    else if IsLineTerminator(s[j]) then None
    else ItalicClose(s, j + 1)
  }

  /**
   * The italic pass from position `p` of its input `s`: every match of
   * `(?<!\*)\*(?!\*)(.*?)(?<!\*)\*(?!\*)` becomes `<em>$1</em>`. The look-behinds read the
   * pass's input, so the scan keeps the whole of `s`.
   */
  function ItalicFrom(s: string, p: nat): string
    requires p <= |s|
    decreases |s| - p
  {
    if p == |s| then []
    else if LoneStarAt(s, p) && ItalicClose(s, p + 1).Some? then
      var q := ItalicClose(s, p + 1).value;
      Em(s[p + 1..q]) + ItalicFrom(s, q + 1)
    else [s[p]] + ItalicFrom(s, p + 1)
  }

  function Em(x: string): string {
    "<em>" + x + "</em>"
  }

  function Italic(s: string): string {
    ItalicFrom(s, 0)
  }

  /** The regular expression's meaning at a lone `*` followed on its line by another lone `*`. */
  lemma {:induction false} ItalicAtPair(s: string, p: nat, q: nat)
    requires LoneStarAt(s, p) && p < q && LoneStarAt(s, q) && NoTerminator(s, p + 1, q)
    requires forall k :: p < k < q ==> !LoneStarAt(s, k)
    ensures ItalicFrom(s, p) == Em(s[p + 1..q]) + ItalicFrom(s, q + 1)
  {
    ItalicCloseAt(s, p + 1, q);
  }

  lemma {:induction false} ItalicCloseAt(s: string, j: nat, q: nat)
    requires j <= q && LoneStarAt(s, q) && NoTerminator(s, j, q)
    requires forall k :: j <= k < q ==> !LoneStarAt(s, k)
    ensures ItalicClose(s, j) == Some(q)
  {
    var r := ItalicClose(s, j);
    assert r.Some?;
    assert !(r.value < q);
  }

  /** A `*` next to another `*` never opens an italic span. */
  lemma {:induction false} ItalicSkipsDoubleStar(s: string, p: nat)
    requires p < |s| && s[p] == '*' && ((p > 0 && s[p - 1] == '*') || (p + 1 < |s| && s[p + 1] == '*'))
    ensures ItalicFrom(s, p) == "*" + ItalicFrom(s, p + 1)
  {
  }

  /** Text without any `*` passes the italic pass unchanged. */
  lemma {:induction false} ItalicNoStar(s: string, p: nat)
    requires p <= |s|
    requires forall k :: p <= k < |s| ==> s[k] != '*'
    ensures ItalicFrom(s, p) == s[p..]
    decreases |s| - p
  {
    if p < |s| {
      ItalicNoStar(s, p + 1);
      assert s[p..] == [s[p]] + s[p + 1..];
    }
  }

  lemma {:induction false} ItalicNoStarAll(s: string)
    requires '*' !in s
    ensures Italic(s) == s
  {
    ItalicNoStar(s, 0);
    assert s[0..] == s;
  }

  // ================================================================ list runs

  datatype ListKind = Numbered | Bullet

  /**
   * The group `(.*)` of `^(\d+)\.\s(.*)$` (numbered) or `^[-*]\s(.*)$` (bullet) on one line:
   * a line the list pass turns into an item, and the item's text.
   */
  function ItemContent(kind: ListKind, line: string): Option<string> {
    match kind
    case Numbered =>
      var d := DigitsFrom(line, 0);
      if 1 <= d && d + 2 <= |line| && line[d] == '.' && IsSpace(line[d + 1]) && NoTerminator(line, d + 2, |line|)
      then Some(line[d + 2..]) else None
    case Bullet =>
      if 2 <= |line| && (line[0] == '-' || line[0] == '*') && IsSpace(line[1]) && NoTerminator(line, 2, |line|)
      then Some(line[2..]) else None
  }

  predicate IsItem(kind: ListKind, line: string) {
    ItemContent(kind, line).Some?
  }

  /** Every digits-dot-space line is a numbered item, whatever the number; the number is dropped. */
  lemma {:induction false} NumberedItemShape(ds: string, w: char, c: string)
    requires |ds| >= 1 && AllDigits(ds) && IsSpace(w) && NoTerminator(c, 0, |c|)
    ensures ItemContent(Numbered, ds + "." + [w] + c) == Some(c)
  {
    var line := ds + "." + [w] + c;
    DigitsFromExact(line, 0, |ds|);
    assert line[|ds| + 2..] == c;
    assert forall k :: |ds| + 2 <= k < |line| ==> line[k] == c[k - |ds| - 2];
  }

  /** No line is both a numbered and a bullet item, so runs of the two kinds never merge. */
  lemma {:induction false} ItemKindsExclusive(line: string)
    ensures !(IsItem(Numbered, line) && IsItem(Bullet, line))
  {
    if IsItem(Numbered, line) {
      assert IsDigit(line[0]);
    }
  }

  function Open(kind: ListKind): string {
    match kind
    case Numbered => "<ol>"
    case Bullet => "<ul>"
  }

  function Close(kind: ListKind): string {
    match kind
    case Numbered => "</ol>"
    case Bullet => "</ul>"
  }

  /** One rendered list item. */
  function Li(c: string): string {
    "  <li>" + c + "</li>"
  }

  /** What the item test says about each line. */
  function Items(kind: ListKind, lines: seq<string>): (r: seq<Option<string>>)
    ensures |r| == |lines|
  {
    seq(|lines|, i requires 0 <= i < |lines| => ItemContent(kind, lines[i]))
  }

  /**
   * What the pass turns line `i` into, stated without the scan's flag: an item opens the list
   * when the line before it is not an item; a non-item closes the list when the line before
   * it is an item; any other line is kept.
   */
  function RenderLine(kind: ListKind, items: seq<Option<string>>, lines: seq<string>, i: nat): string
    requires |items| == |lines| && i < |lines|
  {
    match items[i]
    case Some(c) =>
      (if i == 0 || items[i - 1].None? then Open(kind) + "\n" else "") + Li(c)
    case None =>
      (if i > 0 && items[i - 1].Some? then Close(kind) + "\n" else "") + lines[i]
  }

  /** Every line rendered. */
  function Rendered(kind: ListKind, lines: seq<string>): (r: seq<string>)
    ensures |r| == |lines|
  {
    var items := Items(kind, lines);
    seq(|lines|, i requires 0 <= i < |lines| => RenderLine(kind, items, lines, i))
  }

  predicate AnyItem(kind: ListKind, lines: seq<string>) {
    exists i :: 0 <= i < |lines| && IsItem(kind, lines[i])
  }

  /** The whole list pass: each line rendered, and the list closed if the last line is an item. */
  function ListPassSpec(kind: ListKind, text: string): string {
    var lines := Split(text);
    if !AnyItem(kind, lines) then text
    else
      Join(Rendered(kind, lines)) + Trailer(kind, IsItem(kind, lines[|lines| - 1]))
  }

  /** What follows the joined lines: the closing tag of a list still open after the last line. */
  function Trailer(kind: ListKind, open: bool): string {
    if open then "\n" + Close(kind) else ""
  }

  /**
   * The `lines.map(...)` of the list pass: an `inList` flag remembers whether a list is open
   * and decides whether an item opens one and whether a plain line closes one.
   */
  method RenderLines(kind: ListKind, lines: seq<string>) returns (mapped: seq<string>, inList: bool)
    ensures mapped == Rendered(kind, lines)
    ensures inList == (|lines| > 0 && IsItem(kind, lines[|lines| - 1]))
  {
    ghost var items := Items(kind, lines);
    inList := false;
    mapped := [];
    var i := 0;
    while i < |lines|
      invariant 0 <= i <= |lines|
      invariant |mapped| == i
      invariant forall j :: 0 <= j < i ==> mapped[j] == RenderLine(kind, items, lines, j)
      invariant inList == (i > 0 && items[i - 1].Some?)
    {
      var line := lines[i];
      var item := ItemContent(kind, line);
      assert item == items[i];
      var rendered: string;
      if item.Some? {
        if !inList {
          inList := true;
          rendered := Open(kind) + "\n" + Li(item.value);
        } else {
          rendered := Li(item.value);
        }
      } else if inList {
        inList := false;
        rendered := Close(kind) + "\n" + line;
      } else {
        rendered := line;
      }
      assert rendered == RenderLine(kind, items, lines, i);
      mapped := mapped + [rendered];
      i := i + 1;
    }
  }

  /**
   * The list pass as the source runs it: split into lines, map them, join, and close a list
   * still open after the last line.
   */
  method ListPass(kind: ListKind, text: string) returns (out: string)
    ensures out == ListPassSpec(kind, text)
  {
    var lines := Split(text);
    if !AnyItem(kind, lines) {
      ListPassSpecUnguarded(kind, text);
      return text;
    }
    var mapped, inList := RenderLines(kind, lines);
    out := Join(mapped);
    if inList {
      out := out + Trailer(kind, true);
    }
    ListPassSpecGuarded(kind, text, mapped, inList);
  }

  lemma ListPassSpecUnguarded(kind: ListKind, text: string)
    requires !AnyItem(kind, Split(text))
    ensures ListPassSpec(kind, text) == text
  {
  }

  lemma ListPassSpecGuarded(kind: ListKind, text: string, mapped: seq<string>, inList: bool)
    requires AnyItem(kind, Split(text)) && mapped == Rendered(kind, Split(text))
    requires inList == (|Split(text)| > 0 && IsItem(kind, Split(text)[|Split(text)| - 1]))
    ensures ListPassSpec(kind, text) == Join(mapped) + Trailer(kind, inList)
  {
    var lines := Split(text);
    assert inList == IsItem(kind, lines[|lines| - 1]);
  }

  /**
   * Without any item line the per-line rendering is the identity, so guarding the pass with
   * the source's multiline `test` (which may also succeed when `\s` matches a newline) or with
   * "some line is an item" gives the same text.
   */
  lemma {:induction false} ListPassWithoutItems(kind: ListKind, text: string)
    requires !AnyItem(kind, Split(text))
    ensures Join(Rendered(kind, Split(text))) == text
  {
    var lines := Split(text);
    var items := Items(kind, lines);
    var rendered := Rendered(kind, lines);
    assert rendered == lines by {
      forall i | 0 <= i < |lines|
        ensures rendered[i] == lines[i]
      {
        assert !IsItem(kind, lines[i]) && items[i].None?;
        assert i > 0 ==> !IsItem(kind, lines[i - 1]) && items[i - 1].None?;
        assert rendered[i] == RenderLine(kind, items, lines, i);
      }
    }
    JoinSplit(text);
    assert Join(lines) == text;
  }

  // ================================================================ breaks

  /** `\s*<li>` at the start of `t`. */
  function SpacesThenItem(t: string): bool
    decreases |t|
  {
    if OccursAt(t, "<li>", 0) then true
    else if t != [] && IsSpace(t[0]) then SpacesThenItem(t[1..])
    else false
  }

  /** The look-ahead `(?!<\/[ou]l>|<[ou]l>|\s*<li>)` fails: what follows is a list tag. */
  predicate ListTagFollows(t: string) {
    OccursAt(t, "</ol>", 0) || OccursAt(t, "</ul>", 0) || OccursAt(t, "<ol>", 0) ||
    OccursAt(t, "<ul>", 0) || SpacesThenItem(t)
  }

  /** The last pass: a `\n` becomes `<br>` unless a list tag follows it. */
  function Breaks(s: string): string
    decreases |s|
  {
    if s == [] then []
    else BreakOut(s[0], s[1..]) + Breaks(s[1..])
  }

  /** What one character of the input becomes, given the text after it. */
  function BreakOut(c: char, rest: string): string {
    if c == '\n' then NewlineOut(rest) else [c]
  }

  /** What a newline becomes, given the text after it. */
  function NewlineOut(rest: string): string {
    if ListTagFollows(rest) then "\n" else "<br>"
  }

  lemma {:induction false} BreaksCons(c: char, t: string)
    ensures Breaks([c] + t) == BreakOut(c, t) + Breaks(t)
  {
    assert ([c] + t)[0] == c && ([c] + t)[1..] == t;
  }

  /** Text before the first newline is kept as it is. */
  lemma {:induction false} BreaksKeepsPrefix(a: string, t: string)
    requires '\n' !in a
    ensures Breaks(a + t) == a + Breaks(t)
    decreases |a|
  {
    if a != [] {
      assert a + t == [a[0]] + (a[1..] + t);
      BreaksCons(a[0], a[1..] + t);
      BreaksKeepsPrefix(a[1..], t);
      assert BreakOut(a[0], a[1..] + t) == [a[0]];
      assert [a[0]] + a[1..] == a;
    } else {
      assert a + t == t;
    }
  }

  /** Each newline is decided by the text right after it alone; the line before it is kept. */
  lemma {:induction false} BreaksAtNewline(a: string, b: string)
    requires '\n' !in a
    ensures Breaks(a + "\n" + b) == a + NewlineOut(b) + Breaks(b)
  {
    assert a + "\n" + b == a + (['\n'] + b);
    BreaksKeepsPrefix(a, ['\n'] + b);
    BreaksCons('\n', b);
  }

  /** Text without a newline passes the last pass unchanged. */
  lemma {:induction false} BreaksNoNewline(s: string)
    requires '\n' !in s
    ensures Breaks(s) == s
    decreases |s|
  {
    if s != [] {
      BreaksNoNewline(s[1..]);
      assert [s[0]] + s[1..] == s;
    }
  }

  // ================================================================ formatText

  /** `formatText(text)`: the five passes in the source's order; empty text gives "". */
  function Formatted(text: string): string {
    if text == "" then ""
    else Breaks(ListPassSpec(Bullet, ListPassSpec(Numbered, Italic(Bold(text)))))
  }

  method FormatText(text: string) returns (html: string)
    ensures html == Formatted(text)
    ensures text == "" ==> html == ""
  {
    if text == "" {
      return "";
    }
    var t := Italic(Bold(text));
    t := ListPass(Numbered, t);
    t := ListPass(Bullet, t);
    html := Breaks(t);
  }

  /** A text of one line that is not an item passes a list pass unchanged. */
  lemma {:induction false} ListPassOneLine(kind: ListKind, t: string)
    requires '\n' !in t && !IsItem(kind, t)
    ensures ListPassSpec(kind, t) == t
  {
    SplitSingle(t);
  }

  /** A one-line text that is no item of either kind passes the list and break passes unchanged. */
  lemma {:induction false} ListsAndBreaksKeepLine(t: string)
    requires '\n' !in t && !IsItem(Numbered, t) && !IsItem(Bullet, t)
    ensures Breaks(ListPassSpec(Bullet, ListPassSpec(Numbered, t))) == t
  {
    ListPassOneLine(Numbered, t);
    ListPassOneLine(Bullet, t);
    BreaksNoNewline(t);
  }

  /** A text whose bold and italic passes give one line starting with a tag is rendered as that line. */
  lemma {:induction false} FormattedOneLine(text: string, t: string)
    requires text != "" && Italic(Bold(text)) == t
    requires '\n' !in t && t != [] && t[0] == '<'
    ensures Formatted(text) == t
  {
    ListsAndBreaksKeepLine(t);
  }

  /** A star-free word on one line between `**` and `**` is bold. */
  lemma {:induction false} BoldWord(w: string)
    requires '*' !in w && NoTerminator(w, 0, |w|)
    ensures Bold("**" + w + "**") == Strong(w)
  {
    var s := "**" + w + "**";
    var q := |w| + 2;
    assert forall k :: 2 <= k < q ==> s[k] == w[k - 2];
    BoldAtPair(s, q);
    assert s[2..q] == w;
    assert s[q + 2..] == [];
  }

  /** `**w**` renders as `<strong>w</strong>` for a star-free word on one line. */
  lemma {:induction false} FormattedBoldWord(w: string)
    requires '*' !in w && NoTerminator(w, 0, |w|)
    ensures Formatted("**" + w + "**") == Strong(w)
  {
    BoldWord(w);
    var t := Strong(w);
    assert forall k :: 8 <= k < 8 + |w| ==> t[k] == w[k - 8];
    assert '*' !in t;
    assert '\n' !in t;
    ItalicNoStarAll(t);
    FormattedOneLine("**" + w + "**", t);
  }

  /** A non-empty star-free word on one line between two lone `*` is italic. */
  lemma {:induction false} ItalicWord(w: string)
    requires w != "" && '*' !in w && NoTerminator(w, 0, |w|)
    ensures Italic("*" + w + "*") == Em(w)
  {
    var s := "*" + w + "*";
    var q := |w| + 1;
    assert forall k :: 1 <= k < q ==> s[k] == w[k - 1];
    assert LoneStarAt(s, 0) && LoneStarAt(s, q);
    ItalicAtPair(s, 0, q);
    assert s[1..q] == w;
    assert ItalicFrom(s, q + 1) == [];
  }

  /** `*w*` renders as `<em>w</em>` for a non-empty star-free word on one line. */
  lemma {:induction false} FormattedItalicWord(w: string)
    requires w != "" && '*' !in w && NoTerminator(w, 0, |w|)
    ensures Formatted("*" + w + "*") == Em(w)
  {
    var s := "*" + w + "*";
    assert forall k :: 1 <= k < |s| - 1 ==> s[k] == w[k - 1];
    BoldNoDoubleStar(s);
    ItalicWord(w);
    var t := Em(w);
    assert forall k :: 4 <= k < 4 + |w| ==> t[k] == w[k - 4];
    assert '\n' !in t;
    FormattedOneLine(s, t);
  }

  /** The list pass of a text with at least one item, in terms of its lines. */
  lemma {:induction false} ListPassOfLines(kind: ListKind, text: string, lines: seq<string>)
    requires Split(text) == lines && IsItem(kind, lines[0])
    ensures ListPassSpec(kind, text) == Join(Rendered(kind, lines)) + Trailer(kind, IsItem(kind, lines[|lines| - 1]))
  {
    assert AnyItem(kind, lines) by {
      assert IsItem(kind, lines[0]);
    }
    ListPassSpecGuarded(kind, text, Rendered(kind, lines), IsItem(kind, lines[|lines| - 1]));
  }

  lemma {:induction false} RenderedTwoItems(kind: ListKind, l1: string, l2: string, c1: string, c2: string)
    requires ItemContent(kind, l1) == Some(c1) && ItemContent(kind, l2) == Some(c2)
    ensures Rendered(kind, [l1, l2]) == [Open(kind) + "\n" + Li(c1), Li(c2)]
  {
    var lines := [l1, l2];
    var items := Items(kind, lines);
    assert items[0] == Some(c1) && items[1] == Some(c2);
    assert RenderLine(kind, items, lines, 0) == Open(kind) + "\n" + Li(c1);
    assert RenderLine(kind, items, lines, 1) == Li(c2);
  }

  /** A two-line run of items becomes one list with two items. */
  lemma {:induction false} ListPassTwoItems(kind: ListKind, l1: string, l2: string, c1: string, c2: string)
    requires '\n' !in l1 && '\n' !in l2
    requires ItemContent(kind, l1) == Some(c1) && ItemContent(kind, l2) == Some(c2)
    ensures ListPassSpec(kind, l1 + "\n" + l2)
         == Open(kind) + "\n" + Li(c1) + "\n" + Li(c2) + "\n" + Close(kind)
  {
    SplitLine(l1, l2);
    SplitSingle(l2);
    var lines := [l1, l2];
    assert IsItem(kind, lines[0]) && IsItem(kind, lines[1]);
    ListPassOfLines(kind, l1 + "\n" + l2, lines);
    var x := Open(kind) + "\n" + Li(c1);
    var y := Li(c2);
    RenderedTwoItems(kind, l1, l2, c1, c2);
    assert Join([x, y]) == x + "\n" + y;
  }

  /** A newline that a list tag follows stays a newline; the line before it is kept. */
  lemma {:induction false} BreaksBeforeTag(a: string, b: string)
    requires '\n' !in a && ListTagFollows(b)
    ensures Breaks(a + "\n" + b) == a + "\n" + Breaks(b)
  {
    BreaksAtNewline(a, b);
  }

  /** A rendered item line, with its two spaces of indentation, is a list tag for the look-ahead. */
  lemma {:induction false} ItemLineFollows(x: string)
    ensures ListTagFollows("  <li>" + x)
  {
    var t := "  <li>" + x;
    assert t[1..] == " <li>" + x && t[1..][1..] == "<li>" + x;
    assert OccursAt("<li>" + x, "<li>", 0) by {
      assert ("<li>" + x)[..4] == "<li>";
    }
    assert SpacesThenItem(t[1..][1..]);
    assert SpacesThenItem(t[1..]);
  }

  /** A closing or opening list tag at the start of a text is seen by the look-ahead. */
  lemma {:induction false} TagFollows(tag: string, x: string)
    requires tag == "</ol>" || tag == "</ul>" || tag == "<ol>" || tag == "<ul>"
    ensures ListTagFollows(tag + x)
  {
    assert (tag + x)[..|tag|] == tag;
  }

  /** `\s*<li>` at the start of a text still matches when more text follows. */
  lemma {:induction false} SpacesThenItemExtends(t: string, u: string)
    requires SpacesThenItem(t)
    ensures SpacesThenItem(t + u)
    decreases |t|
  {
    if OccursAt(t, "<li>", 0) {
      assert (t + u)[0..4] == t[0..4];
    } else {
      SpacesThenItemExtends(t[1..], u);
      assert (t + u)[1..] == t[1..] + u;
    }
  }

  /** What the newline look-ahead sees at the start of a line it still sees when more follows. */
  lemma {:induction false} ListTagFollowsExtends(t: string, u: string)
    requires ListTagFollows(t)
    ensures ListTagFollows(t + u)
  {
    if SpacesThenItem(t) {
      SpacesThenItemExtends(t, u);
    } else {
      assert (t + u)[0..4] == t[0..4];
      if |t| >= 5 {
        assert (t + u)[0..5] == t[0..5];
      }
    }
  }

  /**
   * Lines joined with newlines, every line after the first starting with a list tag, pass
   * the last pass unchanged: no newline between them becomes `<br>`.
   */
  lemma {:induction false} BreaksOfTaggedLines(lines: seq<string>)
    requires |lines| >= 1
    requires forall i :: 0 <= i < |lines| ==> '\n' !in lines[i]
    requires forall i :: 1 <= i < |lines| ==> ListTagFollows(lines[i])
    ensures Breaks(Join(lines)) == Join(lines)
    decreases |lines|
  {
    if |lines| == 1 {
      BreaksNoNewline(lines[0]);
    } else {
      var rest := lines[1..];
      assert forall i :: 1 <= i < |rest| ==> rest[i] == lines[i + 1];
      BreaksOfTaggedLines(rest);
      assert ListTagFollows(Join(rest)) by {
        assert ListTagFollows(rest[0]);
        if |rest| > 1 {
          ListTagFollowsExtends(rest[0], "\n" + Join(rest[1..]));
          assert Join(rest) == rest[0] + ("\n" + Join(rest[1..]));
        }
      }
      BreaksBeforeTag(lines[0], Join(rest));
    }
  }

  /** A rendered item is a list tag for the look-ahead. */
  lemma {:induction false} LiFollows(c: string)
    ensures ListTagFollows(Li(c))
  {
    assert Li(c) == "  <li>" + (c + "</li>");
    ItemLineFollows(c + "</li>");
  }

  /** The four list tags on their own line are list tags for the look-ahead. */
  lemma {:induction false} TagsFollow()
    ensures ListTagFollows("<ol>") && ListTagFollows("</ol>") && ListTagFollows("<ul>") && ListTagFollows("</ul>")
  {
    TagFollows("<ol>", "");
    TagFollows("</ol>", "");
    TagFollows("<ul>", "");
    TagFollows("</ul>", "");
    assert "<ol>" + "" == "<ol>" && "</ol>" + "" == "</ol>" && "<ul>" + "" == "<ul>" && "</ul>" + "" == "</ul>";
  }

  /** Item text the passes leave alone: no `*` and no line break. */
  predicate Plain(c: string) {
    '*' !in c && NoTerminator(c, 0, |c|)
  }

  /** Without any `*` the bold and italic passes change nothing. */
  lemma {:induction false} InlineNoStar(text: string)
    requires '*' !in text
    ensures Italic(Bold(text)) == text
  {
    assert NoDoubleStar(text);
    BoldNoDoubleStar(text);
    ItalicNoStarAll(text);
  }

  /** A rendered item of plain text holds no newline. */
  lemma {:induction false} LiOneLine(c: string)
    requires Plain(c)
    ensures '\n' !in Li(c) && '*' !in Li(c)
  {
    var t := Li(c);
    assert forall k :: 6 <= k < 6 + |c| ==> t[k] == c[k - 6];
    assert forall k :: 0 <= k < |c| ==> !IsLineTerminator(c[k]);
  }

  /** `n. c` with a one-digit number is the numbered item holding `c`. */
  lemma {:induction false} NumberedLine(d: char, c: string)
    requires IsDigit(d) && Plain(c)
    ensures ItemContent(Numbered, [d] + ". " + c) == Some(c)
    ensures '\n' !in [d] + ". " + c && '*' !in [d] + ". " + c
  {
    assert AllDigits([d]);
    NumberedItemShape([d], ' ', c);
    assert [d] + "." + [' '] + c == [d] + ". " + c;
    var t := [d] + ". " + c;
    assert forall k :: 3 <= k < |t| ==> t[k] == c[k - 3];
    assert forall k :: 0 <= k < |c| ==> !IsLineTerminator(c[k]);
  }

  /** `- c` is the bullet item holding `c`, and no numbered item. */
  lemma {:induction false} BulletLine(c: string)
    requires Plain(c)
    ensures ItemContent(Bullet, "- " + c) == Some(c) && !IsItem(Numbered, "- " + c)
    ensures '\n' !in "- " + c && '*' !in "- " + c
  {
    var t := "- " + c;
    assert forall k :: 2 <= k < |t| ==> t[k] == c[k - 2];
    assert t[2..] == c;
    ItemKindsExclusive(t);
  }

  /** The rendered lines of a list start with `<` or a space, so none is a bullet item. */
  lemma {:induction false} RenderedNotBullet(line: string)
    requires line != [] && (line[0] == '<' || line[0] == ' ')
    ensures !IsItem(Bullet, line)
  {
  }

  /** A rendered two-item ordered list, line by line. */
  lemma {:induction false} OrderedHtmlLines(c1: string, c2: string)
    ensures Join(["<ol>", Li(c1), Li(c2), "</ol>"]) == "<ol>\n" + Li(c1) + "\n" + Li(c2) + "\n</ol>"
  {
    JoinFour("<ol>", Li(c1), Li(c2), "</ol>");
  }

  /** The two lines `1. c1` and `2. c2` are numbered items holding `c1` and `c2`. */
  lemma {:induction false} NumberedPair(c1: string, c2: string)
    requires Plain(c1) && Plain(c2)
    ensures ItemContent(Numbered, "1. " + c1) == Some(c1) && '\n' !in "1. " + c1
    ensures ItemContent(Numbered, "2. " + c2) == Some(c2) && '\n' !in "2. " + c2
  {
    NumberedLine('1', c1);
    NumberedLine('2', c2);
    assert ['1'] + ". " + c1 == "1. " + c1;
    assert ['2'] + ". " + c2 == "2. " + c2;
  }

  /** The text `1. c1\n2. c2` as its two lines, and the ordered list with its tags written out. */
  lemma {:induction false} TwoNumberedStrings(c1: string, c2: string)
    ensures "1. " + c1 + "\n2. " + c2 == ("1. " + c1) + "\n" + ("2. " + c2)
    ensures Open(Numbered) + "\n" + Li(c1) + "\n" + Li(c2) + "\n" + Close(Numbered)
         == "<ol>\n" + Li(c1) + "\n" + Li(c2) + "\n</ol>"
  {
  }

  /** A numbered run of two plain items becomes one ordered list with two items. */
  lemma {:induction false} NumberedPassOfTwo(c1: string, c2: string)
    requires Plain(c1) && Plain(c2)
    ensures ListPassSpec(Numbered, "1. " + c1 + "\n2. " + c2) == "<ol>\n" + Li(c1) + "\n" + Li(c2) + "\n</ol>"
  {
    NumberedPair(c1, c2);
    ListPassTwoItems(Numbered, "1. " + c1, "2. " + c2, c1, c2);
    TwoNumberedStrings(c1, c2);
  }




  /** The bullet pass finds no item in a rendered ordered list and leaves it alone. */
  lemma {:induction false} BulletPassKeepsList(c1: string, c2: string)
    requires Plain(c1) && Plain(c2)
    ensures ListPassSpec(Bullet, "<ol>\n" + Li(c1) + "\n" + Li(c2) + "\n</ol>") == "<ol>\n" + Li(c1) + "\n" + Li(c2) + "\n</ol>"
  {
    var u := "<ol>\n" + Li(c1) + "\n" + Li(c2) + "\n</ol>";
    var lines := ["<ol>", Li(c1), Li(c2), "</ol>"];
    OrderedHtmlLines(c1, c2);
    LiOneLine(c1);
    LiOneLine(c2);
    SplitJoin(lines);
    assert !AnyItem(Bullet, lines) by {
      forall i | 0 <= i < |lines|
        ensures !IsItem(Bullet, lines[i])
      {
        RenderedNotBullet(lines[i]);
      }
    }
    ListPassSpecUnguarded(Bullet, u);
  }

  /** Every newline of a rendered two-item ordered list is followed by a list tag and stays a newline. */
  lemma {:induction false} BreaksOfTwoItemList(c1: string, c2: string)
    requires Plain(c1) && Plain(c2)
    ensures Breaks("<ol>\n" + Li(c1) + "\n" + Li(c2) + "\n</ol>") == "<ol>\n" + Li(c1) + "\n" + Li(c2) + "\n</ol>"
  {
    var lines := ["<ol>", Li(c1), Li(c2), "</ol>"];
    OrderedHtmlLines(c1, c2);
    LiOneLine(c1);
    LiOneLine(c2);
    LiFollows(c1);
    LiFollows(c2);
    TagsFollow();
    BreaksOfTaggedLines(lines);
  }

  /**
   * `formatText("1. a\n2. b")`: two numbered lines of plain text become one ordered list with
   * two items and no `<br>`; the numbers themselves are dropped.
   */
  lemma {:induction false} FormattedNumberedList(c1: string, c2: string)
    requires Plain(c1) && Plain(c2)
    ensures Formatted("1. " + c1 + "\n2. " + c2) == "<ol>\n" + Li(c1) + "\n" + Li(c2) + "\n</ol>"
  {
    var text := "1. " + c1 + "\n2. " + c2;
    assert '*' !in text by {
      NumberedLine('1', c1);
      NumberedLine('2', c2);
      assert text == ['1'] + ". " + c1 + "\n" + (['2'] + ". " + c2);
    }
    InlineNoStar(text);
    NumberedPassOfTwo(c1, c2);
    BulletPassKeepsList(c1, c2);
    BreaksOfTwoItemList(c1, c2);
  }

  /** The concrete strings of `formatText("1. a\n2. b")`, spelled with the item helpers. */
  lemma NumberedListExampleStrings(text: string)
    requires text == "1. a\n2. b"
    ensures "1. " + "a" + "\n2. " + "b" == text
    ensures "<ol>\n" + Li("a") + "\n" + Li("b") + "\n</ol>" == "<ol>\n  <li>a</li>\n  <li>b</li>\n</ol>"
  {
  }

  /** The concrete case `formatText("1. a\n2. b")`. */
  lemma FormattedNumberedListExample(text: string)
    requires text == "1. a\n2. b"
    ensures Formatted(text) == "<ol>\n  <li>a</li>\n  <li>b</li>\n</ol>"
  {
    NumberedListExampleStrings(text);
    FormattedNumberedList("a", "b");
  }



  /** The lines `1. c1` and `- c2`: a numbered item holding `c1`, then a line the numbered pass keeps. */
  lemma {:induction false} NumberedThenBulletLines(c1: string, c2: string)
    requires Plain(c1) && Plain(c2)
    ensures ItemContent(Numbered, "1. " + c1) == Some(c1) && '\n' !in "1. " + c1
    ensures !IsItem(Numbered, "- " + c2) && '\n' !in "- " + c2
  {
    NumberedLine('1', c1);
    assert ['1'] + ". " + c1 == "1. " + c1;
    BulletLine(c2);
  }

  lemma {:induction false} RenderedItemThenPlain(kind: ListKind, l1: string, l2: string, c1: string)
    requires ItemContent(kind, l1) == Some(c1) && !IsItem(kind, l2)
    ensures Rendered(kind, [l1, l2]) == [Open(kind) + "\n" + Li(c1), Close(kind) + "\n" + l2]
  {
    var lines := [l1, l2];
    var items := Items(kind, lines);
    assert items[0] == Some(c1) && items[1] == None;
    assert RenderLine(kind, items, lines, 0) == Open(kind) + "\n" + Li(c1);
    assert RenderLine(kind, items, lines, 1) == Close(kind) + "\n" + l2;
  }

  /** An item line then a line that is no item: the list opened by the first closes before the second. */
  lemma {:induction false} ListPassItemThenPlain(kind: ListKind, l1: string, l2: string, c1: string)
    requires '\n' !in l1 && '\n' !in l2
    requires ItemContent(kind, l1) == Some(c1) && !IsItem(kind, l2)
    ensures ListPassSpec(kind, l1 + "\n" + l2) == Open(kind) + "\n" + Li(c1) + "\n" + Close(kind) + "\n" + l2
  {
    SplitLine(l1, l2);
    SplitSingle(l2);
    var lines := [l1, l2];
    assert IsItem(kind, lines[0]) && !IsItem(kind, lines[1]);
    ListPassOfLines(kind, l1 + "\n" + l2, lines);
    var x, y := Open(kind) + "\n" + Li(c1), Close(kind) + "\n" + l2;
    RenderedItemThenPlain(kind, l1, l2, c1);
    assert Join([x, y]) == x + "\n" + y;
  }

  /** The text `1. c1\n- c2` as its two lines, and the closed ordered list before the kept line. */
  lemma {:induction false} NumberedThenBulletStrings(c1: string, c2: string)
    ensures "1. " + c1 + "\n- " + c2 == ("1. " + c1) + "\n" + ("- " + c2)
    ensures Open(Numbered) + "\n" + Li(c1) + "\n" + Close(Numbered) + "\n" + ("- " + c2)
         == "<ol>\n" + Li(c1) + "\n</ol>\n- " + c2
  {
  }

  /** A numbered line then a bullet line: the numbered pass closes its list before the bullet line. */
  lemma {:induction false} NumberedThenBulletPass(c1: string, c2: string)
    requires Plain(c1) && Plain(c2)
    ensures ListPassSpec(Numbered, "1. " + c1 + "\n- " + c2) == "<ol>\n" + Li(c1) + "\n</ol>\n- " + c2
  {
    NumberedThenBulletLines(c1, c2);
    ListPassItemThenPlain(Numbered, "1. " + c1, "- " + c2, c1);
    NumberedThenBulletStrings(c1, c2);
  }

  /** The lines the bullet pass sees after `NumberedThenBulletPass`. */
  lemma {:induction false} MixedLines(c1: string, c2: string)
    requires Plain(c1) && Plain(c2)
    ensures Split("<ol>\n" + Li(c1) + "\n</ol>\n- " + c2) == ["<ol>", Li(c1), "</ol>", "- " + c2]
  {
    var lines := ["<ol>", Li(c1), "</ol>", "- " + c2];
    assert Join(lines) == "<ol>\n" + Li(c1) + "\n</ol>\n- " + c2 by {
      JoinFour("<ol>", Li(c1), "</ol>", "- " + c2);
    }
    BulletLine(c2);
    LiOneLine(c1);
    SplitJoin(lines);
  }

  /** How the bullet pass renders those lines: only the last is an item, and it opens a list. */
  lemma {:induction false} MixedRendered(c1: string, c2: string)
    requires Plain(c1) && Plain(c2)
    ensures Rendered(Bullet, ["<ol>", Li(c1), "</ol>", "- " + c2]) == ["<ol>", Li(c1), "</ol>", "<ul>\n" + Li(c2)]
    ensures IsItem(Bullet, "- " + c2)
  {
    var lines := ["<ol>", Li(c1), "</ol>", "- " + c2];
    var items := Items(Bullet, lines);
    assert items == [None, None, None, Some(c2)] by {
      BulletLine(c2);
      RenderedNotBullet(lines[0]);
      RenderedNotBullet(lines[1]);
      RenderedNotBullet(lines[2]);
    }
    var mapped := ["<ol>", Li(c1), "</ol>", "<ul>\n" + Li(c2)];
    assert RenderLine(Bullet, items, lines, 0) == mapped[0];
    assert RenderLine(Bullet, items, lines, 1) == mapped[1];
    assert RenderLine(Bullet, items, lines, 2) == mapped[2];
    assert RenderLine(Bullet, items, lines, 3) == mapped[3];
  }

  /** The bullet pass over the output of `NumberedThenBulletPass`: the last line opens and closes a list. */
  lemma {:induction false} BulletAfterNumberedPass(c1: string, c2: string)
    requires Plain(c1) && Plain(c2)
    ensures ListPassSpec(Bullet, "<ol>\n" + Li(c1) + "\n</ol>\n- " + c2)
         == "<ol>\n" + Li(c1) + "\n</ol>\n<ul>\n" + Li(c2) + "\n</ul>"
  {
    var u := "<ol>\n" + Li(c1) + "\n</ol>\n- " + c2;
    var lines := ["<ol>", Li(c1), "</ol>", "- " + c2];
    var mapped := ["<ol>", Li(c1), "</ol>", "<ul>\n" + Li(c2)];
    MixedLines(c1, c2);
    MixedRendered(c1, c2);
    assert AnyItem(Bullet, lines) by {
      assert IsItem(Bullet, lines[3]);
    }
    ListPassSpecGuarded(Bullet, u, mapped, true);
    MixedJoined(c1, c2);
  }

  lemma {:induction false} MixedJoined(c1: string, c2: string)
    ensures Join(["<ol>", Li(c1), "</ol>", "<ul>\n" + Li(c2)]) + Trailer(Bullet, true)
         == "<ol>\n" + Li(c1) + "\n</ol>\n<ul>\n" + Li(c2) + "\n</ul>"
  {
    JoinFour("<ol>", Li(c1), "</ol>", "<ul>\n" + Li(c2));
  }


  /** Every newline of an ordered list followed by an unordered one is followed by a list tag. */
  lemma {:induction false} BreaksOfMixed(c1: string, c2: string)
    requires Plain(c1) && Plain(c2)
    ensures Breaks("<ol>\n" + Li(c1) + "\n</ol>\n<ul>\n" + Li(c2) + "\n</ul>")
         == "<ol>\n" + Li(c1) + "\n</ol>\n<ul>\n" + Li(c2) + "\n</ul>"
  {
    var lines := ["<ol>", Li(c1), "</ol>", "<ul>", Li(c2), "</ul>"];
    MixedHtmlLines(c1, c2);
    LiOneLine(c1);
    LiOneLine(c2);
    LiFollows(c1);
    LiFollows(c2);
    TagsFollow();
    BreaksOfTaggedLines(lines);
  }

  /** The two rendered lists, line by line. */
  lemma {:induction false} MixedHtmlLines(c1: string, c2: string)
    ensures Join(["<ol>", Li(c1), "</ol>", "<ul>", Li(c2), "</ul>"])
         == "<ol>\n" + Li(c1) + "\n</ol>\n<ul>\n" + Li(c2) + "\n</ul>"
  {
    JoinSix("<ol>", Li(c1), "</ol>", "<ul>", Li(c2), "</ul>");
  }


  /**
   * `formatText("1. a\n- b")`: a numbered line followed by a bullet line becomes an ordered
   * list closed before an unordered one; the two runs never merge and no `<br>` appears.
   */
  lemma {:induction false} FormattedMixedLists(c1: string, c2: string)
    requires Plain(c1) && Plain(c2)
    ensures Formatted("1. " + c1 + "\n- " + c2) == "<ol>\n" + Li(c1) + "\n</ol>\n<ul>\n" + Li(c2) + "\n</ul>"
  {
    var text := "1. " + c1 + "\n- " + c2;
    assert '*' !in text by {
      NumberedLine('1', c1);
      BulletLine(c2);
      assert text == ['1'] + ". " + c1 + "\n" + ("- " + c2);
    }
    InlineNoStar(text);
    NumberedThenBulletPass(c1, c2);
    BulletAfterNumberedPass(c1, c2);
    BreaksOfMixed(c1, c2);
  }

  /** The concrete strings of `formatText("1. a\n- b")`, spelled with the item helpers. */
  lemma MixedListsExampleStrings(text: string)
    requires text == "1. a\n- b"
    ensures "1. " + "a" + "\n- " + "b" == text
    ensures "<ol>\n" + Li("a") + "\n</ol>\n<ul>\n" + Li("b") + "\n</ul>" == "<ol>\n  <li>a</li>\n</ol>\n<ul>\n  <li>b</li>\n</ul>"
  {
    assert Li("a") == "  <li>a</li>" && Li("b") == "  <li>b</li>";
    assert "<ol>\n" + "  <li>a</li>" + "\n</ol>\n<ul>\n" == "<ol>\n  <li>a</li>\n</ol>\n<ul>\n";
  }

  /** The concrete case `formatText("1. a\n- b")`. */
  lemma FormattedMixedListsExample(text: string)
    requires text == "1. a\n- b"
    ensures Formatted(text) == "<ol>\n  <li>a</li>\n</ol>\n<ul>\n  <li>b</li>\n</ul>"
  {
    MixedListsExampleStrings(text);
    FormattedMixedLists("a", "b");
  }




  // ================================================================ stripFormatting

  /** Replacing `\*\*(.*?)\*\*` by `$1` everywhere: each bold pair dropped, its content kept. */
  function StripBold(s: string): string
    decreases |s|
  {
    if s == [] then []
    else if DoubleStarAt(s, 0) && BoldClose(s, 2).Some? then
      var q := BoldClose(s, 2).value;
      s[2..q] + StripBold(s[q + 2..])
    else [s[0]] + StripBold(s[1..])
  }

  /** The first `*` at or after `j`, provided no line terminator comes before it. */
  function StarClose(s: string, j: nat): (r: Option<nat>)
    requires j <= |s|
    ensures r.Some? ==> j <= r.value < |s| && s[r.value] == '*' && NoTerminator(s, j, r.value)
    ensures r.Some? ==> forall k :: j <= k < r.value ==> s[k] != '*'
    ensures r.None? ==> forall q :: j <= q < |s| && s[q] == '*' ==> !NoTerminator(s, j, q)
    decreases |s| - j
  {
    if j == |s| then None
    else if s[j] == '*' then Some(j)
    else if IsLineTerminator(s[j]) then None
    else StarClose(s, j + 1)
  }

  /** Replacing `\*(.*?)\*` by `$1` everywhere: each pair of stars on a line dropped, the text between kept. */
  function StripStars(s: string): string
    decreases |s|
  {
    if s == [] then []
    else if s[0] == '*' && StarClose(s, 1).Some? then
      var q := StarClose(s, 1).value;
      s[1..q] + StripStars(s[q + 1..])
    else [s[0]] + StripStars(s[1..])
  }

  /** Where the multiline `^` matches: the start of the text or just after a line terminator. */
  predicate LineStart(s: string, p: nat) {
    p == 0 || (p <= |s| && IsLineTerminator(s[p - 1]))
  }

  /**
   * The length of the list marker `\d+\.\s` (numbered) or `[-*]\s` (bullet) at `p`, or 0
   * when there is none.
   */
  function MarkerAt(kind: ListKind, s: string, p: nat): (n: nat)
    requires p <= |s|
    ensures n == 0 || p + n <= |s|
  {
    match kind
    case Numbered =>
      var d := DigitsFrom(s, p);
      if d >= 1 && p + d + 2 <= |s| && s[p + d] == '.' && IsSpace(s[p + d + 1]) then d + 2 else 0
    case Bullet =>
      if p + 2 <= |s| && (s[p] == '-' || s[p] == '*') && IsSpace(s[p + 1]) then 2 else 0
  }

  /**
   * `.replace(/^\d+\.\s/gm, '')` (numbered) or `.replace(/^[-*]\s/gm, '')` (bullet) from
   * position `p` of its input `s`: every marker at a line start deleted. The `^` reads the
   * pass's input, so a marker whose `\s` is a newline makes the next line start right after it.
   */
  function StripMarkersFrom(kind: ListKind, s: string, p: nat): string
    requires p <= |s|
    decreases |s| - p
  {
    if p == |s| then []
    else
      var m := MarkerHere(kind, s, p);
      if m > 0 then StripMarkersFrom(kind, s, p + m)
      else [s[p]] + StripMarkersFrom(kind, s, p + 1)
  }

  /** The marker the multiline pattern matches at `p`: one at a line start, else none. */
  function MarkerHere(kind: ListKind, s: string, p: nat): (n: nat)
    requires p <= |s|
    ensures n == 0 || p + n <= |s|
  {
    if LineStart(s, p) then MarkerAt(kind, s, p) else 0
  }

  function StripMarkers(kind: ListKind, s: string): string {
    StripMarkersFrom(kind, s, 0)
  }

  /** `stripFormatting(text)`: the four deletions in the source's order; empty text gives "". */
  function StripFormatting(text: string): string {
    if text == "" then ""
    else StripMarkers(Bullet, StripMarkers(Numbered, StripStars(StripBold(text))))
  }

  /** Bold stripping only deletes characters. */
  lemma {:induction false} StripBoldDeletes(s: string)
    ensures IsSubseq(StripBold(s), s)
    decreases |s|
  {
    if s == [] {
    } else if DoubleStarAt(s, 0) && BoldClose(s, 2).Some? {
      var q := BoldClose(s, 2).value;
      StripBoldDeletes(s[q + 2..]);
      SubseqSliceThen(s, 2, q, q + 2, StripBold(s[q + 2..]));
    } else {
      StripBoldDeletes(s[1..]);
      SubseqSliceThen(s, 0, 1, 1, StripBold(s[1..]));
      assert s[0..1] == [s[0]];
    }
  }

  /** Star stripping only deletes characters. */
  lemma {:induction false} StripStarsDeletes(s: string)
    ensures IsSubseq(StripStars(s), s)
    decreases |s|
  {
    if s == [] {
    } else if s[0] == '*' && StarClose(s, 1).Some? {
      var q := StarClose(s, 1).value;
      StripStarsDeletes(s[q + 1..]);
      SubseqSliceThen(s, 1, q, q + 1, StripStars(s[q + 1..]));
    } else {
      StripStarsDeletes(s[1..]);
      SubseqSliceThen(s, 0, 1, 1, StripStars(s[1..]));
      assert s[0..1] == [s[0]];
    }
  }

  /** Marker stripping only deletes characters. */
  lemma {:induction false} StripMarkersDeletes(kind: ListKind, s: string, p: nat)
    requires p <= |s|
    ensures IsSubseq(StripMarkersFrom(kind, s, p), s[p..])
    decreases |s| - p
  {
    if p < |s| {
      var m := MarkerHere(kind, s, p);
      if m > 0 {
        StripMarkersDeletes(kind, s, p + m);
        SubseqSkip(s, p, m, StripMarkersFrom(kind, s, p + m));
      } else {
        StripMarkersDeletes(kind, s, p + 1);
        SubseqKeep(s, p, StripMarkersFrom(kind, s, p + 1));
      }
    }
  }

  /**
   * The plain text keeps the characters of the formatted text, in order, and only drops
   * markers: it is a subsequence of the input, so never longer.
   */
  lemma StripFormattingDeletes(text: string)
    ensures IsSubseq(StripFormatting(text), text)
    ensures |StripFormatting(text)| <= |text|
  {
    if text != "" {
      var b := StripBold(text);
      var t := StripStars(b);
      var n := StripMarkers(Numbered, t);
      StripBoldDeletes(text);
      StripStarsDeletes(b);
      SubseqTrans(t, b, text);
      StripMarkersDeletes(Numbered, t, 0);
      assert t[0..] == t;
      SubseqTrans(n, t, text);
      StripMarkersDeletes(Bullet, n, 0);
      assert n[0..] == n;
      SubseqTrans(StripFormatting(text), n, text);
    }
    SubseqLength(StripFormatting(text), text);
  }

  /**
   * Stripping is not idempotent: the bullet pass deletes one marker per line start, so a line
   * that begins with two markers keeps the second.
   */
  lemma StripFormattingNotIdempotent()
    ensures StripFormatting("- - x") == "- x"
    ensures StripFormatting("- x") == "x"
    ensures StripFormatting(StripFormatting("- - x")) != StripFormatting("- - x")
  {
    StripTwoBullets();
    StripOneBullet();
  }

  lemma StripTwoBullets()
    ensures StripFormatting("- - x") == "- x"
  {
    var s := "- - x";
    StripUnmarkedUntilBullets(s);
    assert MarkerHere(Bullet, s, 0) == 2;
    assert s[1] == ' ' && s[2] == '-' && s[3] == ' ' && s[4] == 'x';
    StripMarkersMidLine(Bullet, s, 2);
    assert s[2..] == "- x";
  }

  lemma StripOneBullet()
    ensures StripFormatting("- x") == "x"
  {
    var s := "- x";
    StripUnmarkedUntilBullets(s);
    assert MarkerHere(Bullet, s, 0) == 2;
    assert s[1] == ' ' && s[2] == 'x';
    StripMarkersMidLine(Bullet, s, 2);
    assert s[2..] == "x";
  }

  /** Away from line starts the marker passes keep every character. */
  lemma {:induction false} StripMarkersMidLine(kind: ListKind, s: string, p: nat)
    requires 0 < p <= |s| && NoTerminator(s, p - 1, |s|)
    ensures StripMarkersFrom(kind, s, p) == s[p..]
    decreases |s| - p
  {
    if p < |s| {
      assert !LineStart(s, p);
      StripMarkersMidLine(kind, s, p + 1);
      assert s[p..] == [s[p]] + s[p + 1..];
    }
  }

  /** A text without stars and digits reaches the bullet pass unchanged. */
  lemma StripUnmarkedUntilBullets(t: string)
    requires t != "" && '*' !in t && forall k :: 0 <= k < |t| ==> !IsDigit(t[k])
    ensures StripFormatting(t) == StripMarkers(Bullet, t)
  {
    StripBoldNoStar(t);
    StripStarsNoStar(t);
    StripNumbersNoDigit(t, 0);
    assert t[0..] == t;
  }

  lemma {:induction false} StripBoldNoStar(s: string)
    requires '*' !in s
    ensures StripBold(s) == s
    decreases |s|
  {
    if s != [] {
      assert s[0] != '*';
      StripBoldNoStar(s[1..]);
      assert [s[0]] + s[1..] == s;
    }
  }

  lemma {:induction false} StripStarsNoStar(s: string)
    requires '*' !in s
    ensures StripStars(s) == s
    decreases |s|
  {
    if s != [] {
      assert s[0] != '*';
      StripStarsNoStar(s[1..]);
      assert [s[0]] + s[1..] == s;
    }
  }

  lemma {:induction false} StripNumbersNoDigit(s: string, p: nat)
    requires p <= |s| && forall k :: 0 <= k < |s| ==> !IsDigit(s[k])
    ensures StripMarkersFrom(Numbered, s, p) == s[p..]
    decreases |s| - p
  {
    if p < |s| {
      assert MarkerHere(Numbered, s, p) == 0 by {
        assert s[p..][0] == s[p];
      }
      StripNumbersNoDigit(s, p + 1);
      assert s[p..] == [s[p]] + s[p + 1..];
    }
  }

  // ================================================================ isWithinFormatting

  /**
   * `isWithinFormatting(text, cursorPos, formatType)`: whether the toolbar shows a format as
   * active at the cursor. A missing cursor (`undefined` or `null`) is `None`; an empty text,
   * a missing cursor and an unknown format give false.
   */
  function IsWithinFormatting(text: string, cursorPos: Option<int>, formatType: string): bool {
    if text == "" || cursorPos.None? then false
    else
      var c := cursorPos.value;
      if formatType == "bold" then InlineWithin(text, c, "**", "**")
      else if formatType == "italic" then InlineWithin(text, c, "*", "*")
      else if formatType == "numbered-list" then MarkerAt(Numbered, CurrentLine(text, c), 0) > 0
      else if formatType == "bullet-list" then MarkerAt(Bullet, CurrentLine(text, c), 0) > 0
      else false
  }

  /** The line the list check reads: from after the last newline before the cursor to the next one. */
  function CurrentLine(text: string, c: int): string {
    var lineStart := LastIndexOf(text, "\n", c - 1) + 1;
    var lineEnd := IndexOf(text, "\n", c);
    Substring(text, lineStart, if lineEnd > -1 then lineEnd else |text|)
  }

  /**
   * The inline check: the last start marker before the cursor, no end marker between it and
   * the cursor, an end marker after the cursor and no start marker before that end marker.
   */
  function InlineWithin(text: string, c: int, startMarker: string, endMarker: string): bool {
    var before := Substring(text, 0, c);
    var after := Substring(text, c, |text|);
    var lastStart := LastIndexOf(before, startMarker, |before|);
    if lastStart == -1 then false
    else
      var endBefore := IndexOf(before, endMarker, lastStart + |startMarker|);
      if endBefore != -1 && endBefore < c then false
      else
        var nextEnd := IndexOf(after, endMarker, 0);
        if nextEnd == -1 then false
        else
          var startAfter := IndexOf(after, startMarker, 0);
          !(startAfter != -1 && startAfter < nextEnd)
  }

  /**
   * With the same marker for start and end, the two checks that should exclude a closed pair
   * before the cursor and an opened pair after it can never fire: the end marker searched after
   * the LAST start marker cannot exist, and the first start and the first end marker after the
   * cursor are the same occurrence. The check reduces to "a marker somewhere before the cursor
   * and a marker somewhere after it".
   */
  lemma InlineWithinSameMarker(text: string, c: int, m: string)
    requires |m| > 0
    ensures InlineWithin(text, c, m, m)
         == (Includes(Substring(text, 0, c), m) && Includes(Substring(text, c, |text|), m))
  {
    var before := Substring(text, 0, c);
    var lastStart := LastIndexOf(before, m, |before|);
    if lastStart != -1 {
      assert Includes(before, m);
    }
  }

  /** Bold is reported active when "**" occurs both before and after the cursor, and only then. */
  lemma BoldWithinMeaning(text: string, c: int)
    requires text != ""
    ensures IsWithinFormatting(text, Some(c), "bold")
         == (Includes(Substring(text, 0, c), "**") && Includes(Substring(text, c, |text|), "**"))
  {
    InlineWithinSameMarker(text, c, "**");
  }

  /** Italic is reported active when "*" occurs both before and after the cursor, and only then. */
  lemma ItalicWithinMeaning(text: string, c: int)
    requires text != ""
    ensures IsWithinFormatting(text, Some(c), "italic")
         == (Includes(Substring(text, 0, c), "*") && Includes(Substring(text, c, |text|), "*"))
  {
    InlineWithinSameMarker(text, c, "*");
  }

  /**
   * For a cursor inside the text, the list check reads exactly the line holding the cursor:
   * it starts at the text's start or after a newline, ends at the text's end or at a newline,
   * contains the cursor and no newline. The one exception is a cursor at 0 in a text that
   * starts with a newline, where `lastIndexOf('\n', -1)` still finds index 0; the line read
   * is then "\n", which holds no list marker either.
   */
  lemma CurrentLineHoldsCursor(text: string, c: int)
    requires 0 <= c <= |text|
    requires c > 0 || text == [] || text[0] != '\n'
    ensures var a := LastIndexOf(text, "\n", c - 1) + 1;
            var e := IndexOf(text, "\n", c);
            var b := if e > -1 then e else |text|;
            0 <= a <= c <= b <= |text| && CurrentLine(text, c) == text[a..b]
            && (a == 0 || text[a - 1] == '\n') && (b == |text| || text[b] == '\n')
            && forall k :: a <= k < b ==> text[k] != '\n'
  {
    var a := LastIndexOf(text, "\n", c - 1) + 1;
    var e := IndexOf(text, "\n", c);
    var b := if e > -1 then e else |text|;
    forall k | a <= k < b
      ensures text[k] != '\n'
    {
      if text[k] == '\n' {
        assert OccursAt(text, "\n", k) by {
          assert text[k..k + 1] == [text[k]];
        }
      }
    }
    if a > 0 {
      assert OccursAt(text, "\n", a - 1);
      assert text[a - 1..a][0] == text[a - 1];
    }
    if e > -1 {
      assert text[e..e + 1][0] == text[e];
    }
  }

  /** The cursor at 0 of a text starting with a newline reads "\n", which is no list line. */
  lemma CurrentLineAtLeadingNewline(text: string)
    requires text != [] && text[0] == '\n'
    ensures CurrentLine(text, 0) == "\n"
    ensures !IsWithinFormatting(text, Some(0), "numbered-list")
    ensures !IsWithinFormatting(text, Some(0), "bullet-list")
  {
    assert OccursAt(text, "\n", 0) by {
      assert text[0..1] == [text[0]];
    }
    assert CurrentLine(text, 0) == text[0..1];
    assert text[0..1] == "\n";
    assert "\n"[0..][0] == '\n';
  }

  /** Any other format name is never active. */
  lemma UnknownFormatInactive(text: string, cursorPos: Option<int>, formatType: string)
    requires formatType !in {"bold", "italic", "numbered-list", "bullet-list"}
    ensures !IsWithinFormatting(text, cursorPos, formatType)
  {
  }

  /** A cursor inside a bold span `**y**` is reported as bold. */
  lemma BoldWithinSpan(x: string, y: string, z: string, c: int)
    requires |x| + 2 <= c <= |x| + 2 + |y|
    ensures IsWithinFormatting(x + "**" + y + "**" + z, Some(c), "bold")
  {
    var t := x + "**" + y + "**" + z;
    var j := |x| + 2 + |y|;
    SpanMarkers(x, y, z);
    BoldWithinMeaning(t, c);
    assert Substring(t, 0, c) == t[..c];
    OccursInPrefix(t, "**", |x|, c);
    assert Substring(t, c, |t|) == t[c..];
    OccursInSuffix(t, "**", j, c);
  }

  /** The two markers of `x**y**z`. */
  lemma SpanMarkers(x: string, y: string, z: string)
    ensures OccursAt(x + "**" + y + "**" + z, "**", |x|)
    ensures OccursAt(x + "**" + y + "**" + z, "**", |x| + 2 + |y|)
  {
    var t := x + "**" + y + "**" + z;
    var j := |x| + 2 + |y|;
    assert t[|x|] == '*' && t[|x| + 1] == '*' && t[j] == '*' && t[j + 1] == '*';
    assert t[|x|..|x| + 2] == "**" && t[j..j + 2] == "**";
  }

  /**
   * A cursor between two bold spans is reported as bold too: the check only asks for a
   * marker on each side of the cursor.
   */
  lemma BoldWithinBetweenSpans(a: string, b: string, d: string, c: int)
    requires |a| + 4 <= c <= |a| + 4 + |b|
    ensures IsWithinFormatting("**" + a + "**" + b + "**" + d + "**", Some(c), "bold")
  {
    var x := "**" + a;
    var t := x + "**" + b + "**" + (d + "**");
    assert t == "**" + a + "**" + b + "**" + d + "**";
    BoldWithinSpan(x, b, d + "**", c);
  }

  /** With no "**" from the cursor on, bold is not reported. */
  lemma BoldNotWithinAfterLastMarker(t: string, c: int)
    requires t != "" && 0 <= c <= |t|
    requires forall k :: c <= k ==> !OccursAt(t, "**", k)
    ensures !IsWithinFormatting(t, Some(c), "bold")
  {
    BoldWithinMeaning(t, c);
    var after := Substring(t, c, |t|);
    assert after == t[c..];
    forall k | OccursAt(after, "**", k)
      ensures false
    {
      assert t[c + k..c + k + 2] == after[k..k + 2];
      assert OccursAt(t, "**", c + k);
    }
  }

  /** Anywhere on a single numbered line the toolbar shows the numbered list. */
  lemma NumberedWithinLine(t: string, c: int)
    requires 0 <= c <= |t| && '\n' !in t && MarkerAt(Numbered, t, 0) > 0
    ensures IsWithinFormatting(t, Some(c), "numbered-list")
  {
    CurrentLineHoldsCursor(t, c);
    var a := LastIndexOf(t, "\n", c - 1) + 1;
    var e := IndexOf(t, "\n", c);
    var b := if e > -1 then e else |t|;
    assert a == 0 && b == |t|;
    assert CurrentLine(t, c) == t[0..|t|] == t;
  }
}

