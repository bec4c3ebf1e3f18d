/** The fixed text of an exported preset page.
  *
  * It is given in short parts so that the absence of question marks is checked part by part.
  */
module PresetPage {
  import opened Preset

  /** Text without a question mark. */
  type Plain = s: string | forall i :: 0 <= i < |s| ==> s[i] != '?'

  /** A character that cannot be part of a link. */
  type Markup = c: char | IsMarkup(c) witness ' '

  function Joined(parts: seq<Plain>): Plain {
    if parts == [] then "" else parts[0] + Joined(parts[1..])
  }

  /** Fixed text between two filled-in places, with its first and last characters apart. */
  datatype Piece = Piece(open: Markup, text: Plain, close: Markup) {
    function Text(): string {
      [open] + text + [close]
    }
  }

  const XML_DECLARATION := "<?xml version=\"1.0\" encoding=\"utf-8\"?>"

  const HEAD_1: Plain := Joined([
    "<html>\n",
    "  <!--Exported by magpie in the",
    " Arma 3 Launcher's preset"])
  const HEAD_2: Plain := Joined([
    " format.-->\n  <head>\n",
    "    <meta name=\"arma:Type\"",
    " content=\"preset\" />\n"])
  const HEAD_3: Plain := Joined([
    "    <meta name=\"arma:PresetName\"",
    " content="])

  /** Up to the preset name in the metadata. */
  const HEAD := Piece('\n', Joined([HEAD_1, HEAD_2, HEAD_3]), '"')

  const AFTER_META_1: Plain := Joined([
    " />\n",
    "    <meta name=\"generator\"",
    " content=\"magpie\" />\n"])
  const AFTER_META_2: Plain := Joined([
    "    <title>Arma 3</title>\n",
    "    <style>\n",
    "body { margin: 0; padding: 0;"])
  const AFTER_META_3: Plain := Joined([
    " color: #fff; background: #000;",
    " }\n",
    "body, th, td { font: 95%/1.3"])
  const AFTER_META_4: Plain := Joined([
    " Roboto, Segoe UI, Tahoma,",
    " Arial, Helvetica, sans-serif;",
    " }\n"])
  const AFTER_META_5: Plain := Joined([
    "td { padding: 3px 30px 3px 0; }\n",
    "h1 { padding: 20px 20px 0 20px;",
    " color: white; font-weight: 200;"])
  const AFTER_META_6: Plain := Joined([
    " font-family: segoe ui;",
    " font-size: 3em; margin: 0; }\n",
    "em { font-variant: italic;"])
  const AFTER_META_7: Plain := Joined([
    " color: silver; }\n",
    ".before-list { padding: 5px 20px",
    " 10px 20px; }\n"])
  const AFTER_META_8: Plain := Joined([
    ".mod-list { background: #222222;",
    " padding: 20px; }\n",
    ".footer { padding: 20px; color:"])
  const AFTER_META_9: Plain := Joined([
    " gray; }\n",
    "a { color: #D18F21;",
    " text-decoration: underline; }\n"])
  const AFTER_META_10: Plain := Joined([
    "a:hover { color: #F1AF41;",
    " text-decoration: none; }\n",
    ".from-steam { color: #449EBD; }\n"])
  const AFTER_META_11: Plain := Joined([
    "    </style>\n  </head>\n  <body>\n",
    "    <h1>Arma 3  - Preset <strong"])

  /** From there to the name in the heading. */
  const AFTER_META := Piece('"', Joined([
    AFTER_META_1, AFTER_META_2, AFTER_META_3, AFTER_META_4, AFTER_META_5, AFTER_META_6,
    AFTER_META_7, AFTER_META_8, AFTER_META_9, AFTER_META_10, AFTER_META_11]), '>')

  const AFTER_HEADING_1: Plain := Joined([
    "/strong></h1>\n",
    "    <p class=\"before-list\">\n",
    "      <em>To import this preset,"])
  const AFTER_HEADING_2: Plain := Joined([
    " drag this file onto the",
    " Launcher window. Or click the",
    " MODS tab, then PRESET in the"])
  const AFTER_HEADING_3: Plain := Joined([
    " top right, then IMPORT at the",
    " bottom, and finally select this",
    " file.</em>\n    </p>\n"])
  const AFTER_HEADING_4: Plain := Joined([
    "    <div class=\"mod-list\">\n",
    "      <table>"])

  /** From there to the rows. */
  const AFTER_HEADING := Piece('<', Joined([AFTER_HEADING_1, AFTER_HEADING_2, AFTER_HEADING_3, AFTER_HEADING_4]), '\n')

  const ROW_START_1: Plain := Joined([
    "       <tr",
    " data-type=\"ModContainer\">\n",
    "          <td"])
  const ROW_START_2: Plain := " data-type=\"DisplayName\""

  /** One row, up to the title. */
  const ROW_START := Piece(' ', Joined([ROW_START_1, ROW_START_2]), '>')

  const AFTER_TITLE_1: Plain := Joined([
    "/td>\n          <td>\n",
    "            <span",
    " class=\"from-steam\">Steam</span>\n"])
  const AFTER_TITLE_2: Plain := Joined([
    "          </td>\n          <td>\n",
    "            <a href="])

  /** From there to the link target. */
  const AFTER_TITLE := Piece('<', Joined([AFTER_TITLE_1, AFTER_TITLE_2]), '"')

  /** From there to the link text. */
  const AFTER_HREF := Piece('"', " data-type=\"Link\"", '>')

  /** The rest of the row. */
  const AFTER_LINK := Piece('<', Joined([
    "/a>\n          </td>\n",
    "        </tr>"]), '\n')

  /** From the rows to the count. */
  const AFTER_ROWS := Piece(' ', Joined([
    "     </table>\n    </div>\n",
    "    <div class=\"footer\">\n",
    "      <span"]), '>')

  /** The rest of the page. */
  const AFTER_COUNT := Piece(' ', Joined([
    "mods. Exported by",
    " magpie.</span>\n    </div>\n",
    "  </body>\n</html>"]), '\n')

  /** The page around the filled-in places. */
  datatype Page = Page(
    head: Piece, afterMeta: Piece, afterHeading: Piece,
    rowStart: Piece, afterTitle: Piece, afterHref: Piece, afterLink: Piece,
    afterRows: Piece, afterCount: Piece)

  const LAUNCHER_PAGE := Page(
    HEAD, AFTER_META, AFTER_HEADING, ROW_START, AFTER_TITLE, AFTER_HREF, AFTER_LINK, AFTER_ROWS, AFTER_COUNT)
}
