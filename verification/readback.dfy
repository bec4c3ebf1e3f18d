/** Reading an exported preset page back: the name, and each row's title and id. */
module ReadBack {
  import opened Results
  import opened Decimal
  import opened Preset
  import opened PresetPage
  import opened Export

  /** Where `c` first occurs, or the end. */
  function IndexOf(s: string, c: char): (k: nat)
    ensures k <= |s| && c !in s[..k] && (k < |s| ==> s[k] == c)
  {
    if s == [] || s[0] == c then 0 else
      var k := 1 + IndexOf(s[1..], c);
      assert s[..k] == [s[0]] + s[1..][..k - 1];
      k
  }

  /** The text after `before` up to the next `stop`, and the rest from there on. */
  function Field(s: string, before: string, stop: char): Option<(string, string)> {
    if before <= s then
      var t := s[|before|..];
      var k := IndexOf(t, stop);
      Some((t[..k], t[k..]))
    else None
  }

  lemma {:induction false} IndexAfter(text: string, after: string, stop: char)
    requires stop !in text && after != [] && after[0] == stop
    ensures IndexOf(text + after, stop) == |text|
  {
    if text == [] {
      assert text + after == after;
    } else {
      assert (text + after)[1..] == text[1..] + after;
      IndexAfter(text[1..], after, stop);
    }
  }

  lemma {:induction false} FieldReads(before: string, text: string, after: string, stop: char)
    requires stop !in text && after != [] && after[0] == stop
    ensures Field(before + (text + after), before, stop) == Some((text, after))
  {
    assert (before + (text + after))[|before|..] == text + after;
    IndexAfter(text, after, stop);
    assert (text + after)[..|text|] == text && (text + after)[|text|..] == after;
  }

  /** One row: its title between tags, its link as target and as text, and what follows it. */
  function ReadRow(nd: char -> bool, page: Page, s: string): Option<(Mod, string)> {
    match Field(s, page.rowStart.Text(), '<')
    case None => None
    case Some((title, s1)) =>
      match Field(s1, page.afterTitle.Text(), '"')
      case None => None
      case Some((target, s2)) =>
        match Field(s2, page.afterHref.Text(), '<')
        case None => None
        case Some((text, s3)) =>
          match ExtractSingleId(nd, target)
          case None => None
          case Some(id) =>
            if page.afterLink.Text() <= s3 && text == target
            then Some((Mod(id, Unescape(title)), s3[|page.afterLink.Text()|..])) else None
  }

  /** Rows for as long as there are any. */
  function ReadRows(nd: char -> bool, page: Page, s: string): (seq<Mod>, string)
    decreases |s|
  {
    match ReadRow(nd, page, s)
    case None => ([], s)
    case Some((mod, rest)) =>
      if |rest| < |s| then
        var (mods, end) := ReadRows(nd, page, rest);
        ([mod] + mods, end)
      else ([], s)
  }

  /** The page's name, which has to stand in both places, and its rows, as many as it says. */
  function ReadPage(nd: char -> bool, page: Page, s: string): Option<(string, seq<Mod>)> {
    match Field(s, XML_DECLARATION + page.head.Text(), '"')
    case None => None
    case Some((name, s1)) =>
      match Field(s1, page.afterMeta.Text(), '<')
      case None => None
      case Some((again, s2)) =>
        if name != again || !(page.afterHeading.Text() <= s2) then None
        else
          var (mods, s3) := ReadRows(nd, page, s2[|page.afterHeading.Text()|..]);
          if s3 == page.afterRows.Text() + ToDecimal(|mods|) + page.afterCount.Text()
          then Some((Unescape(name), mods)) else None
  }

  /** The fixed text closes each filled-in place with the character that ends it, and no row
    * begins where the rows end. */
  predicate Delimits(page: Page) {
    && page.afterMeta.open == '"' && page.afterHeading.open == '<'
    && page.afterTitle.open == '<' && page.afterHref.open == '"' && page.afterLink.open == '<'
    && |page.rowStart.text| > 6 && |page.afterRows.text| > 6 && page.rowStart.text[5] != page.afterRows.text[5]
  }

  lemma EscapedHasNoMarkup(text: string, c: char)
    requires c == '<' || c == '"'
    ensures c !in Escape(text)
  {
    EscapedTextIsInert(text);
  }

  lemma {:induction false} UrlHasNoMarkup(id: U64, c: char)
    requires c == '<' || c == '"'
    ensures c !in WorkshopUrl(id)
  {
    assert c !in ToDecimal(id);
    assert c !in LINK;
  }

  lemma {:induction false} Regroup(a: string, b: string, c: string, d: string, e: string, f: string, g: string, rest: string)
    ensures a + b + c + d + e + f + g + rest == a + (b + (c + (d + (e + (f + (g + rest))))))
  {
  }

  lemma {:induction false} RowTextReads(
      nd: char -> bool, page: Page, title: string, url: string, id: U64, rest: string)
    requires Delimits(page) && '<' !in title && '"' !in url && '<' !in url && ExtractSingleId(nd, url) == Some(id)
    ensures ReadRow(nd, page, RowText(page, title, url) + rest) == Some((Mod(id, Unescape(title)), rest))
  {
    var s3 := page.afterLink.Text() + rest;
    var s2 := page.afterHref.Text() + (url + s3);
    var s1 := page.afterTitle.Text() + (url + s2);
    Regroup(page.rowStart.Text(), title, page.afterTitle.Text(), url, page.afterHref.Text(), url, page.afterLink.Text(), rest);
    FieldReads(page.rowStart.Text(), title, s1, '<');
    FieldReads(page.afterTitle.Text(), url, s2, '"');
    FieldReads(page.afterHref.Text(), url, s3, '<');
    assert s3[|page.afterLink.Text()|..] == rest;
  }

  /** A printed row is read as its mod, with what follows it left over. */
  lemma {:induction false} RowReads(nd: char -> bool, page: Page, mod: Mod, rest: string)
    requires DigitClass(nd) && Delimits(page)
    ensures ReadRow(nd, page, Row(page, mod) + rest) == Some((mod, rest))
  {
    EscapedHasNoMarkup(mod.title, '<');
    UrlHasNoMarkup(mod.id, '"');
    UrlHasNoMarkup(mod.id, '<');
    UrlRoundTrip(nd, mod.id);
    EscapeRoundTrip(mod.title);
    RowTextReads(nd, page, Escape(mod.title), WorkshopUrl(mod.id), mod.id, rest);
  }

  lemma {:induction false} RowsFromFront(page: Page, mods: seq<Mod>)
    requires mods != []
    ensures Rows(page, mods) == Row(page, mods[0]) + Rows(page, mods[1..])
  {
    var k := |mods| - 1;
    var first, last := mods[0], mods[k];
    if k == 0 {
      assert mods[..k] == [] && mods[1..] == [];
      assert Rows(page, mods) == [] + Row(page, first) && Rows(page, mods[1..]) == [];
    } else {
      var middle := mods[1..k];
      RowsFromFront(page, mods[..k]);
      assert mods[..k][1..] == middle && mods[..k][0] == first;
      RowsLast(page, mods[1..], middle, last);
      Associate(Row(page, first), Rows(page, middle), Row(page, last));
    }
  }

  lemma RowsLast(page: Page, mods: seq<Mod>, before: seq<Mod>, last: Mod)
    requires mods == before + [last]
    ensures Rows(page, mods) == Rows(page, before) + Row(page, last)
  {
    assert mods[..|mods| - 1] == before;
  }

  lemma NoRowHere(nd: char -> bool, page: Page, rest: string)
    requires Delimits(page)
    ensures ReadRow(nd, page, page.afterRows.Text() + rest) == None
  {
    var s := page.afterRows.Text() + rest;
    assert s[6] == page.afterRows.text[5];
    assert page.rowStart.Text()[6] == page.rowStart.text[5];
  }

  /** Printed rows are read as their mods, in order. */
  lemma {:induction false} RowsRead(nd: char -> bool, page: Page, mods: seq<Mod>, rest: string)
    requires DigitClass(nd) && Delimits(page)
    ensures ReadRows(nd, page, Rows(page, mods) + (page.afterRows.Text() + rest)) == (mods, page.afterRows.Text() + rest)
  {
    var end := page.afterRows.Text() + rest;
    if mods == [] {
      NoRowHere(nd, page, rest);
      assert Rows(page, mods) + end == end;
    } else {
      RowsRead(nd, page, mods[1..], rest);
      RowsReadFirst(nd, page, mods, end);
    }
  }

  lemma {:induction false} RowsReadFirst(nd: char -> bool, page: Page, mods: seq<Mod>, end: string)
    requires DigitClass(nd) && Delimits(page) && mods != []
    requires ReadRows(nd, page, Rows(page, mods[1..]) + end) == (mods[1..], end)
    ensures ReadRows(nd, page, Rows(page, mods) + end) == (mods, end)
  {
    var row, more := Row(page, mods[0]), Rows(page, mods[1..]) + end;
    RowsFromFront(page, mods);
    Associate(row, Rows(page, mods[1..]), end);
    RowReads(nd, page, mods[0], more);
    assert [mods[0]] + mods[1..] == mods;
  }

  /** Reading a printed page gives back its name and its mods, for any delimiting page text. */
  lemma {:induction false} PageReads(nd: char -> bool, page: Page, name: string, mods: seq<Mod>)
    requires DigitClass(nd) && Delimits(page)
    ensures ReadPage(nd, page, Document(page, name, mods)) == Some((name, mods))
  {
    var escaped := Escape(name);
    var end := page.afterRows.Text() + (ToDecimal(|mods|) + page.afterCount.Text());
    var s3 := Rows(page, mods) + end;
    var s2 := page.afterHeading.Text() + s3;
    var s1 := page.afterMeta.Text() + (escaped + s2);
    DocumentRegrouped(page, escaped, Rows(page, mods), ToDecimal(|mods|));
    EscapedHasNoMarkup(name, '"');
    EscapedHasNoMarkup(name, '<');
    FieldReads(XML_DECLARATION + page.head.Text(), escaped, s1, '"');
    FieldReads(page.afterMeta.Text(), escaped, s2, '<');
    assert s2[|page.afterHeading.Text()|..] == s3;
    RowsRead(nd, page, mods, ToDecimal(|mods|) + page.afterCount.Text());
    Associate(page.afterRows.Text(), ToDecimal(|mods|), page.afterCount.Text());
    EscapeRoundTrip(name);
  }

  lemma {:induction false} DocumentRegrouped(page: Page, name: string, rows: string, count: string)
    ensures XML_DECLARATION + page.head.Text() + name + page.afterMeta.Text() + name
            + page.afterHeading.Text() + rows + page.afterRows.Text() + count + page.afterCount.Text()
         == XML_DECLARATION + page.head.Text()
            + (name + (page.afterMeta.Text() + (name + (page.afterHeading.Text()
               + (rows + (page.afterRows.Text() + (count + page.afterCount.Text())))))))
  {
    var end := page.afterRows.Text() + (count + page.afterCount.Text());
    Regroup(XML_DECLARATION + page.head.Text(), name, page.afterMeta.Text(), name, page.afterHeading.Text(), rows,
            page.afterRows.Text(), count + page.afterCount.Text());
    Associate(XML_DECLARATION + page.head.Text() + name + page.afterMeta.Text() + name
              + page.afterHeading.Text() + rows + page.afterRows.Text(), count, page.afterCount.Text());
  }

  lemma RowStartAt()
    ensures |ROW_START.text| > 6 && ROW_START.text[5] == ' '
  {
  }

  lemma AfterRowsAt()
    ensures |AFTER_ROWS.text| > 6 && AFTER_ROWS.text[5] == '<'
  {
  }

  lemma LauncherPageDelimits()
    ensures Delimits(LAUNCHER_PAGE)
  {
    RowStartAt();
    AfterRowsAt();
  }

  /** An exported preset can be read back completely: its name and, row by row, every id and
    * title. So no two presets print alike. */
  lemma {:induction false} ExportRoundTrip(nd: char -> bool, name: string, mods: seq<Mod>)
    requires DigitClass(nd)
    ensures ReadPage(nd, LAUNCHER_PAGE, Document(LAUNCHER_PAGE, name, mods)) == Some((name, mods))
  {
    LauncherPageDelimits();
    PageReads(nd, LAUNCHER_PAGE, name, mods);
  }
}
