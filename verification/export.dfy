/** Arma 3 Launcher preset exports: the printed page, and what parsing it finds. */
module Export {
  import opened Decimal
  import opened Preset
  import opened PresetPage
  import Workshop

  datatype Mod = Mod(id: U64, title: string)

  /** One row, with the title already escaped. */
  function RowText(page: Page, title: string, url: string): string {
    page.rowStart.Text() + title + page.afterTitle.Text() + url
    + page.afterHref.Text() + url + page.afterLink.Text()
  }

  /** The page, with the name already escaped and the rows already printed. */
  function PageText(page: Page, name: string, rows: string, count: nat): string {
    XML_DECLARATION + page.head.Text() + name + page.afterMeta.Text() + name
    + page.afterHeading.Text() + rows + page.afterRows.Text() + ToDecimal(count)
    + page.afterCount.Text()
  }

  function Row(page: Page, mod: Mod): string {
    RowText(page, Escape(mod.title), WorkshopUrl(mod.id))
  }

  function Rows(page: Page, mods: seq<Mod>): string {
    if mods == [] then [] else Rows(page, mods[..|mods| - 1]) + Row(page, mods[|mods| - 1])
  }

  function Document(page: Page, name: string, mods: seq<Mod>): string {
    PageText(page, Escape(name), Rows(page, mods), |mods|)
  }

  method RenderPage(page: Page, name: string, mods: seq<Mod>) returns (html: string)
    ensures html == Document(page, name, mods)
  {
    var escaped := EscapeHtml(name);
    var rows := "";
    for i := 0 to |mods|
      invariant rows == Rows(page, mods[..i])
    {
      var url := WorkshopUrl(mods[i].id);
      var title := EscapeHtml(mods[i].title);
      rows := rows + RowText(page, title, url);
      assert mods[..i + 1][..i] == mods[..i];
    }
    assert mods[..|mods|] == mods;
    html := PageText(page, escaped, rows, |mods|);
  }

  method RenderPresetHtml(name: string, mods: seq<Mod>) returns (html: string)
    ensures html == Document(LAUNCHER_PAGE, name, mods)
  {
    html := RenderPage(LAUNCHER_PAGE, name, mods);
  }

  // ---------------------------------------------------------------------------------------
  // What parsing finds

  /** Every title's own links, each followed by the mod's id twice. */
  ghost function FoundInRows(find: string -> seq<U64>, mods: seq<Mod>): seq<U64> {
    if mods == [] then []
    else
      var mod := mods[|mods| - 1];
      FoundInRows(find, mods[..|mods| - 1]) + find(mod.title) + [mod.id, mod.id]
  }

  function Doubled(mods: seq<Mod>): seq<U64> {
    if mods == [] then []
    else
      var id := mods[|mods| - 1].id;
      Doubled(mods[..|mods| - 1]) + [id, id]
  }

  ghost predicate FindsUrls(find: string -> seq<U64>) {
    FindsLinks(find) && forall id: U64 :: find(WorkshopUrl(id)) == [id]
  }

  lemma PieceSeparates(find: string -> seq<U64>, a: string, piece: Piece, b: string)
    requires FindsLinks(find)
    ensures find(a + piece.Text() + b) == find(a) + find(b)
  {
    assert '?' !in piece.text && Silent(find, piece.text);
    FramedTextSeparates(find, a, piece.open, piece.text, piece.close, b);
  }

  lemma Associate(a: string, b: string, c: string)
    ensures a + (b + c) == a + b + c
  {
  }

  lemma RowTextAfter(before: string, page: Page, title: string, url: string)
    ensures before + RowText(page, title, url)
         == before + page.rowStart.Text() + title + page.afterTitle.Text() + url
            + page.afterHref.Text() + url + page.afterLink.Text()
  {
    var s1 := page.rowStart.Text();
    var s2 := s1 + title;
    var s3 := s2 + page.afterTitle.Text();
    var s4 := s3 + url;
    var s5 := s4 + page.afterHref.Text();
    Associate(before, s1, title);
    Associate(before, s2, page.afterTitle.Text());
    Associate(before, s3, url);
    Associate(before, s4, page.afterHref.Text());
    Associate(before, s5, url);
    Associate(before, s5 + url, page.afterLink.Text());
  }

  lemma TextSeparates(find: string -> seq<U64>, a: string, piece: Piece, text: string, piece': Piece, b: string)
    requires FindsLinks(find)
    ensures find(a + piece.Text() + text + piece'.Text() + b) == find(a) + find(text) + find(b)
  {
    PieceSeparates(find, a, piece, text);
    PieceSeparates(find, a + piece.Text() + text, piece', b);
  }

  lemma EscapedTextLinks(find: string -> seq<U64>, text: string)
    requires FindsLinks(find)
    ensures find(Escape(text)) == find(text)
  {
    EscapeKeepsLinksAfter(find, [], text);
    assert [] + Escape(text) == Escape(text) && [] + text == text;
  }

  lemma {:induction false} RowTextLinks(
      find: string -> seq<U64>, before: string, page: Page, title: string, url: string)
    requires FindsLinks(find)
    ensures find(before + RowText(page, title, url)) == find(before) + find(title) + find(url) + find(url)
  {
    RowTextAfter(before, page, title, url);
    var s := before + page.rowStart.Text() + title + page.afterTitle.Text() + url;
    TextSeparates(find, before, page.rowStart, title, page.afterTitle, url);
    TextSeparates(find, s, page.afterHref, url, page.afterLink, []);
    assert find([]) == [] by {
      assert Silent(find, []);
    }
    assert s + page.afterHref.Text() + url + page.afterLink.Text() + []
        == s + page.afterHref.Text() + url + page.afterLink.Text();
  }

  /** A row adds its title's links and its mod's id twice. */
  lemma RowLinks(find: string -> seq<U64>, before: string, page: Page, mod: Mod)
    requires FindsUrls(find)
    ensures find(before + Row(page, mod)) == find(before) + find(mod.title) + [mod.id, mod.id]
  {
    RowTextLinks(find, before, page, Escape(mod.title), WorkshopUrl(mod.id));
    EscapedTextLinks(find, mod.title);
  }

  lemma {:induction false} RowsLinks(find: string -> seq<U64>, page: Page, mods: seq<Mod>)
    requires FindsUrls(find)
    ensures find(Rows(page, mods)) == FoundInRows(find, mods)
  {
    if mods == [] {
      assert Silent(find, []);
    } else {
      var before := mods[..|mods| - 1];
      RowsLinks(find, page, before);
      RowLinks(find, Rows(page, before), page, mods[|mods| - 1]);
    }
  }

  lemma FixedTextIsSilent(find: string -> seq<U64>, count: nat)
    requires FindsLinks(find)
    ensures find(XML_DECLARATION) == [] && find(ToDecimal(count)) == [] && find([]) == []
  {
    assert '/' !in XML_DECLARATION;
    assert '?' !in ToDecimal(count);
    assert Silent(find, XML_DECLARATION) && Silent(find, ToDecimal(count)) && Silent(find, []);
  }

  lemma {:induction false} PageTextLinks(
      find: string -> seq<U64>, page: Page, name: string, rows: string, count: nat)
    requires FindsLinks(find)
    ensures find(PageText(page, name, rows, count)) == find(name) + find(name) + find(rows)
  {
    FixedTextIsSilent(find, count);
    var top := XML_DECLARATION + page.head.Text() + name + page.afterMeta.Text() + name;
    var body := top + page.afterHeading.Text() + rows + page.afterRows.Text() + ToDecimal(count);
    TextSeparates(find, XML_DECLARATION, page.head, name, page.afterMeta, name);
    TextSeparates(find, top, page.afterHeading, rows, page.afterRows, ToDecimal(count));
    PieceSeparates(find, body, page.afterCount, []);
    assert body + page.afterCount.Text() + [] == body + page.afterCount.Text();
  }

  lemma DocumentLinks(find: string -> seq<U64>, page: Page, name: string, mods: seq<Mod>)
    requires FindsUrls(find)
    ensures find(Document(page, name, mods)) == find(name) + find(name) + FoundInRows(find, mods)
  {
    PageTextLinks(find, page, Escape(name), Rows(page, mods), |mods|);
    EscapedTextLinks(find, name);
    RowsLinks(find, page, mods);
  }

  lemma ParserFindsUrls(nd: char -> bool)
    requires DigitClass(nd)
    ensures FindsUrls(html => ParsePresetHtml(nd, html))
  {
    ParserFindsLinks(nd);
    forall id: U64 ensures ParsePresetHtml(nd, WorkshopUrl(id)) == [id] {
      UrlRoundTrip(nd, id);
    }
  }

  /** Parsing an export finds the links in the unescaped name twice, then row by row those in the
    * unescaped title and the mod's own id twice. */
  lemma {:induction false} ParseOfRendered(nd: char -> bool, name: string, mods: seq<Mod>)
    requires DigitClass(nd)
    ensures ParsePresetHtml(nd, Document(LAUNCHER_PAGE, name, mods))
         == ParsePresetHtml(nd, name) + ParsePresetHtml(nd, name)
            + FoundInRows(html => ParsePresetHtml(nd, html), mods)
  {
    var find := html => ParsePresetHtml(nd, html);
    ParserFindsUrls(nd);
    DocumentLinks(find, LAUNCHER_PAGE, name, mods);
  }

  lemma {:induction false} RowsAreDoubledIff(find: string -> seq<U64>, mods: seq<Mod>)
    ensures |FoundInRows(find, mods)| >= |Doubled(mods)|
    ensures |FoundInRows(find, mods)| == |Doubled(mods)| <==> forall mod :: mod in mods ==> find(mod.title) == []
    ensures (forall mod :: mod in mods ==> find(mod.title) == []) ==> FoundInRows(find, mods) == Doubled(mods)
  {
    if mods != [] {
      var before, last := mods[..|mods| - 1], mods[|mods| - 1];
      RowsAreDoubledIff(find, before);
      assert mods == before + [last];
    }
  }

  lemma {:induction false} DocumentIsDoubledIff(
      find: string -> seq<U64>, page: Page, name: string, mods: seq<Mod>)
    requires FindsUrls(find)
    ensures find(Document(page, name, mods)) == Doubled(mods)
       <==> find(name) == [] && forall mod :: mod in mods ==> find(mod.title) == []
  {
    DocumentLinks(find, page, name, mods);
    RowsAreDoubledIff(find, mods);
  }

  /** Parsing an export gives each id twice, in order, exactly when neither the name nor any
    * title holds a link of its own. */
  lemma {:induction false} RenderedParsesToItsIdsIff(nd: char -> bool, name: string, mods: seq<Mod>)
    requires DigitClass(nd)
    ensures ParsePresetHtml(nd, Document(LAUNCHER_PAGE, name, mods)) == Doubled(mods)
       <==> && ParsePresetHtml(nd, name) == []
            && forall mod :: mod in mods ==> ParsePresetHtml(nd, mod.title) == []
  {
    ParserFindsUrls(nd);
    DocumentIsDoubledIff(html => ParsePresetHtml(nd, html), LAUNCHER_PAGE, name, mods);
  }

  /** In particular whenever neither the name nor any title contains link text at all. */
  lemma {:induction false} LinklessTextParsesToItsIds(nd: char -> bool, name: string, mods: seq<Mod>)
    requires DigitClass(nd)
    requires !HoldsLink(nd, name) && forall mod :: mod in mods ==> !HoldsLink(nd, mod.title)
    ensures ParsePresetHtml(nd, Document(LAUNCHER_PAGE, name, mods)) == Doubled(mods)
  {
    CapturesNothingIff(nd, name);
    forall mod | mod in mods ensures ParsePresetHtml(nd, mod.title) == [] {
      CapturesNothingIff(nd, mod.title);
    }
    RenderedParsesToItsIdsIff(nd, name, mods);
  }

  /** A name that is itself a Workshop link is parsed along, whatever the mods. */
  lemma {:induction false} LinkInNameIsParsed(nd: char -> bool, id: U64, mods: seq<Mod>)
    requires DigitClass(nd)
    ensures ParsePresetHtml(nd, Document(LAUNCHER_PAGE, WorkshopUrl(id), mods)) != Doubled(mods)
  {
    UrlRoundTrip(nd, id);
    RenderedParsesToItsIdsIff(nd, WorkshopUrl(id), mods);
  }

  function IdsOf(mods: seq<Mod>): seq<U64> {
    seq(|mods|, i requires 0 <= i < |mods| => mods[i].id)
  }

  /** Dropping repeats from the doubled list gives what dropping them from the ids gives. */
  lemma {:induction false} DoublingIsHarmless(mods: seq<Mod>)
    ensures Workshop.FirstNew(Doubled(mods), {}) == Workshop.FirstNew(IdsOf(mods), {})
    ensures Workshop.Ids(Doubled(mods)) == Workshop.Ids(IdsOf(mods))
  {
    if mods != [] {
      var before, last := mods[..|mods| - 1], mods[|mods| - 1];
      DoublingIsHarmless(before);
      assert IdsOf(mods) == IdsOf(before) + [last.id];
      Workshop.FirstNewOfConcat(Doubled(before), [last.id, last.id], {});
      Workshop.FirstNewOfConcat(IdsOf(before), [last.id], {});
      assert Workshop.Ids(Doubled(mods)) == Workshop.Ids(Doubled(before)) + {last.id};
      assert Workshop.Ids(IdsOf(mods)) == Workshop.Ids(IdsOf(before)) + {last.id};
    }
  }
}
