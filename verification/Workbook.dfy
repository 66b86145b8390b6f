/** The spreadsheet export as a whole: five parts in a stored archive, one of them the sheet. */
module Workbook {
  import opened Bits
  import opened Results
  import Utf8
  import Worksheet
  import Xml
  import Zip

  function ContentTypes(): string {
    TypesHead() + Override(WORKBOOK_NAME, "sheet.main") + Override(SHEET_NAME, "worksheet") + "</Types>"
  }

  function TypesHead(): string {
    "<?xml version=\"1.0\" encoding=\"UTF-8\" standalone=\"yes\"?>" +
    "<Types xmlns=\"http://schemas.openxmlformats.org/package/2006/content-types\">" +
    "<Default Extension=\"rels\" ContentType=\"application/vnd.openxmlformats-package.relationships+xml\"/>" +
    "<Default Extension=\"xml\" ContentType=\"application/xml\"/>"
  }

  /** What kind of part a part is. */
  function Override(name: string, kind: string): string {
    "<Override PartName=\"/" + name + "\"" +
    " ContentType=\"application/vnd.openxmlformats-officedocument.spreadsheetml." + kind + "+xml\"/>"
  }

  /** A relationships part with one relationship. */
  function Links(kind: string, target: string): string {
    LinksHead() + ("Id=\"" + LINK_ID + "\"") + LinkType(kind) + (ATTRIBUTE + "=\"") + (target + ("\"" + LINKS_CLOSE))
  }

  const LINK_ID := "rId1"

  function LinksHead(): string {
    "<?xml version=\"1.0\" encoding=\"UTF-8\" standalone=\"yes\"?>" +
    "<Relationships xmlns=\"http://schemas.openxmlformats.org/package/2006/relationships\">" +
    "<Relationship "
  }

  function LinkType(kind: string): string {
    " Type=\"http://schemas.openxmlformats.org/officeDocument/2006/relationships" + ("/" + kind + "\"") + " "
  }

  const ATTRIBUTE := "Target"
  const LINKS_CLOSE := "/></Relationships>"

  function PackageRelationships(): string {
    Links("officeDocument", WORKBOOK_NAME)
  }

  function WorkbookXml(): string {
    WorkbookHead() + ("r:id=\"" + LINK_ID + "\"") + "/></sheets></workbook>"
  }

  function WorkbookHead(): string {
    "<?xml version=\"1.0\" encoding=\"UTF-8\" standalone=\"yes\"?>" +
    "<workbook xmlns=\"http://schemas.openxmlformats.org/spreadsheetml/2006/main\"" +
    " xmlns:r=\"http://schemas.openxmlformats.org/officeDocument/2006/relationships\">" +
    "<sheets><sheet name=\"Providers\" sheetId=\"1\" "
  }

  function WorkbookRelationships(): string {
    Links("worksheet", SHEET_TARGET)
  }

  function XmlDeclaration(): string {
    "<?xml version=\"1.0\" " + ("encoding=\"UTF-8\" " + "standalone=\"yes\"?>")
  }

  function SheetOpening(): string {
    "<worksheet xmlns=" + "\"http://schemas."
  }

  function SheetNamespace(): string {
    "openxmlformats.org/" + "spreadsheetml/"
  }

  function SheetDataOpening(): string {
    "2006/main\">" + "<sheetData>"
  }

  function SheetProlog(): string {
    XmlDeclaration() + (SheetOpening() + (SheetNamespace() + SheetDataOpening()))
  }

  function SheetEpilog(): string {
    "</sheetData></worksheet>"
  }

  const FOLDER := "xl"
  const WORKBOOK_BASE := "workbook.xml"
  const SHEET_TARGET := "worksheets/sheet1.xml"
  const PACKAGE_LINKS := "_rels/.rels"
  const WORKBOOK_NAME := FOLDER + "/" + WORKBOOK_BASE
  const WORKBOOK_LINKS := FOLDER + "/" + ("_rels/" + WORKBOOK_BASE + ".rels")
  const SHEET_NAME := FOLDER + "/" + SHEET_TARGET

  /** The names of the parts in full. */
  lemma NamesAsWritten()
    ensures WORKBOOK_NAME == "xl/workbook.xml" && WORKBOOK_LINKS == "xl/_rels/workbook.xml.rels"
    ensures SHEET_NAME == "xl/worksheets/sheet1.xml" && PACKAGE_LINKS == "_rels/.rels"
  {
  }

  function Sheet(rows: seq<seq<string>>): string {
    SheetProlog() + (Worksheet.RowsXml(rows, 0) + SheetEpilog())
  }

  function Part(name: string, content: string): Zip.File {
    Zip.File(Utf8.Encode(name), Utf8.Encode(content))
  }

  function Parts(rows: seq<seq<string>>): seq<Zip.File> {
    [ Part("[Content_Types].xml", ContentTypes()),
      Part(PACKAGE_LINKS, PackageRelationships()),
      Part(WORKBOOK_NAME, WorkbookXml()),
      Part(WORKBOOK_LINKS, WorkbookRelationships()),
      Part(SHEET_NAME, Sheet(rows)) ]
  }

  /** `buildXlsxExport`; it throws exactly when the archive would not fit its fields. */
  method BuildXlsxExport(rows: seq<seq<string>>) returns (result: Result<seq<Byte>>)
    ensures result.Ok? <==> Zip.Fits(Parts(rows))
    ensures result.Ok? ==> Worksheet.ReadsAs(rows, 0, ReadWorkbook(result.value))
  {
    hide Parts, ReadWorkbook, Zip.Fits, Zip.Archive, Worksheet.ReadsAs;
    var parts := Parts(rows);
    result := Zip.ZipStore(parts);
    if result.Ok? {
      WorkbookReads(rows);
    }
  }

  // ----- reading it back

  /** The content of the first file of a name. */
  function FindPart(items: seq<Zip.Item>, name: string): Option<seq<Byte>> {
    if items == [] then None
    else if Utf8.Decode(items[0].name) == Some(name) then Some(items[0].content)
    else FindPart(items[1..], name)
  }

  /** The rows of a sheet as a reader of XML 1.0 takes them. */
  function ReadSheet(text: string): Option<seq<Worksheet.PlacedRow>> {
    if !Xml.AllChars(text) then None
    else
      match Worksheet.Expect(Xml.NormalizeLineEnds(text), SheetProlog())
      case None => None
      case Some(rest) =>
        var n := |rest| - |SheetEpilog()|;
        if n < 0 || rest[n..] != SheetEpilog() then None else Worksheet.ReadRows(rest[..n])
  }

  /** Where a piece of text stands for the last time. */
  function FindLast(text: string, piece: string): (at: Option<nat>)
    ensures at.Some? ==> at.value + |piece| <= |text|
  {
    if |text| < |piece| then None
    else if text[|text| - |piece|..] == piece then Some(|text| - |piece|)
    else if text == "" then None
    else FindLast(text[..|text| - 1], piece)
  }

  /** The value of the last attribute of a name. */
  function Attribute(text: string, name: string): Option<string> {
    match FindLast(text, name + "=\"")
    case None => None
    case Some(at) =>
      var rest := text[at + |name| + 2..];
      var n := Worksheet.Before(rest, '"');
      Some(rest[..n])
  }

  /** The folder a part is in, with its slash. */
  function Folder(name: string): string {
    match FindLast(name, "/")
    case None => ""
    case Some(at) => name[..at + 1]
  }

  /** The part that holds a part's relationships, by section 9.3 of ECMA-376 part 2. */
  function LinksOf(name: string): string {
    Folder(name) + "_rels/" + name[|Folder(name)|..] + ".rels"
  }

  function TextOf(items: seq<Zip.Item>, name: string): Option<string> {
    match FindPart(items, name)
    case None => None
    case Some(content) => Utf8.Decode(content)
  }

  /** What the relationship of a part leads to, seen from the folder of the part it belongs to. */
  function Follow(items: seq<Zip.Item>, links: string, folder: string): Option<string> {
    match TextOf(items, links)
    case None => None
    case Some(text) =>
      match Attribute(text, ATTRIBUTE)
      case None => None
      case Some(target) => Some(folder + target)
  }

  /** From the bytes of a package to the cells of its sheet: from the package's relationship to the workbook, and from
      the workbook's to the sheet. */
  function ReadWorkbook(data: seq<Byte>): Option<seq<Worksheet.PlacedRow>> {
    match Zip.ReadArchive(data)
    case None => None
    case Some(items) =>
      match Follow(items, PACKAGE_LINKS, "")
      case None => None
      case Some(workbook) =>
        match Follow(items, LinksOf(workbook), Folder(workbook))
        case None => None
        case Some(sheet) =>
          match TextOf(items, sheet)
          case None => None
          case Some(text) => ReadSheet(text)
  }

  lemma DeclarationPlain()
    ensures Worksheet.Plain(XmlDeclaration())
  {
    Worksheet.PlainConcat("encoding=\"UTF-8\" ", "standalone=\"yes\"?>");
    Worksheet.PlainConcat("<?xml version=\"1.0\" ", "encoding=\"UTF-8\" " + "standalone=\"yes\"?>");
  }

  lemma OpeningPlain()
    ensures Worksheet.Plain(SheetOpening())
  {
    Worksheet.PlainConcat("<worksheet xmlns=", "\"http://schemas.");
  }

  lemma NamespacePlain()
    ensures Worksheet.Plain(SheetNamespace())
  {
    Worksheet.PlainConcat("openxmlformats.org/", "spreadsheetml/");
  }

  lemma DataOpeningPlain()
    ensures Worksheet.Plain(SheetDataOpening())
  {
    Worksheet.PlainConcat("2006/main\">", "<sheetData>");
  }

  lemma PrologPlain()
    ensures Worksheet.Plain(SheetProlog()) && Worksheet.Plain(SheetEpilog()) && SheetEpilog()[0] == '<'
  {
    DeclarationPlain();
    OpeningPlain();
    NamespacePlain();
    DataOpeningPlain();
    hide XmlDeclaration, SheetOpening, SheetNamespace, SheetDataOpening;
    Worksheet.PlainConcat(SheetNamespace(), SheetDataOpening());
    Worksheet.PlainConcat(SheetOpening(), SheetNamespace() + SheetDataOpening());
    Worksheet.PlainConcat(XmlDeclaration(), SheetOpening() + (SheetNamespace() + SheetDataOpening()));
  }

  /** The sheet reads as its rows do. */
  lemma SheetReads(rows: seq<seq<string>>)
    ensures ReadSheet(Sheet(rows)) == Worksheet.ReadXml(Worksheet.RowsXml(rows, 0))
  {
    var xml, prolog, epilog := Worksheet.RowsXml(rows, 0), SheetProlog(), SheetEpilog();
    PrologPlain();
    hide SheetProlog, SheetEpilog, Worksheet.RowsXml, Worksheet.ReadRows, Worksheet.Expect, Xml.AllChars,
      Xml.NormalizeLineEnds;
    var read := Xml.NormalizeLineEnds(xml);
    Xml.NormalizeInside(prolog, xml, epilog);
    Xml.AllCharsConcat(xml, epilog);
    Xml.AllCharsConcat(prolog, xml + epilog);
    Worksheet.ExpectLiteral(prolog, read + epilog);
    assert (read + epilog)[|read|..] == epilog && (read + epilog)[..|read|] == read;
  }

  // ----- finding the sheet

  lemma {:induction false} LastIs(head: string, piece: string, rest: string)
    requires piece != "" && piece[0] !in piece[1..] + rest
    ensures FindLast(head + piece + rest, piece) == Some(|head|)
    decreases |rest|
  {
    var text := head + piece + rest;
    if rest == "" {
      assert text[|text| - |piece|..] == piece;
    } else {
      var init := rest[..|rest| - 1];
      assert text[..|text| - 1] == head + piece + init;
      assert text[|text| - |piece|] == (piece + rest)[|rest|] == (piece[1..] + rest)[|rest| - 1];
      LastIs(head, piece, init);
    }
  }

  lemma AttributeIs(head: string, name: string, value: string, rest: string)
    requires name != "" && name[0] !in name[1..] + "=\"" + value + "\"" + rest && '"' !in value
    ensures Attribute(head + (name + "=\"") + (value + ("\"" + rest)), name) == Some(value)
  {
    var piece, behind := name + "=\"", value + ("\"" + rest);
    var text := head + piece + behind;
    assert piece[1..] + behind == name[1..] + "=\"" + value + "\"" + rest;
    LastIs(head, piece, behind);
    assert text[|head| + |piece|..] == behind;
    Worksheet.BeforeStop(value, "\"" + rest, '"');
  }

  lemma NotInBoth(c: char, a: string, b: string)
    requires c !in a && c !in b
    ensures c !in a + b
  {
  }

  lemma LiteralsPlain()
    ensures ATTRIBUTE != "" && ATTRIBUTE[0] == 'T' && 'T' !in ATTRIBUTE[1..]
    ensures 'T' !in LINKS_CLOSE
  {
  }

  lemma TargetsPlain()
    ensures 'T' !in FOLDER && 'T' !in WORKBOOK_BASE && 'T' !in SHEET_TARGET
    ensures '"' !in FOLDER && '"' !in WORKBOOK_BASE && '"' !in SHEET_TARGET
  {
  }

  lemma TargetIs(kind: string, target: string)
    requires 'T' !in target && '"' !in target
    ensures Attribute(Links(kind, target), ATTRIBUTE) == Some(target)
  {
    LiteralsPlain();
    hide LinksHead, LinkType, ATTRIBUTE, LINKS_CLOSE, Attribute;
    var rest := LINKS_CLOSE;
    NotInBoth('T', ATTRIBUTE[1..], "=\"");
    NotInBoth('T', ATTRIBUTE[1..] + "=\"", target);
    NotInBoth('T', ATTRIBUTE[1..] + "=\"" + target, "\"");
    NotInBoth('T', ATTRIBUTE[1..] + "=\"" + target + "\"", rest);
    hide LINK_ID;
    AttributeIs(LinksHead() + ("Id=\"" + LINK_ID + "\"") + LinkType(kind), ATTRIBUTE, target, rest);
  }

  lemma Targets()
    ensures Attribute(PackageRelationships(), ATTRIBUTE) == Some(WORKBOOK_NAME)
    ensures Attribute(WorkbookRelationships(), ATTRIBUTE) == Some(SHEET_TARGET)
  {
    TargetsPlain();
    hide FOLDER, WORKBOOK_BASE, SHEET_TARGET, Attribute, Links, ATTRIBUTE;
    NotInBoth('T', FOLDER, "/");
    NotInBoth('"', FOLDER, "/");
    NotInBoth('T', FOLDER + "/", WORKBOOK_BASE);
    NotInBoth('"', FOLDER + "/", WORKBOOK_BASE);
    TargetIs("officeDocument", WORKBOOK_NAME);
    TargetIs("worksheet", SHEET_TARGET);
  }

  lemma BaseHasNoSlash()
    ensures '/' !in WORKBOOK_BASE
  {
  }

  lemma Folders()
    ensures Folder(WORKBOOK_NAME) == FOLDER + "/" && LinksOf(WORKBOOK_NAME) == WORKBOOK_LINKS
    ensures Folder(WORKBOOK_NAME) + SHEET_TARGET == SHEET_NAME
  {
    BaseHasNoSlash();
    hide FOLDER, WORKBOOK_BASE, SHEET_TARGET, FindLast;
    LastIs(FOLDER, "/", WORKBOOK_BASE);
    var name, n := WORKBOOK_NAME, |FOLDER| + 1;
    assert name[..n] == FOLDER + "/" && name[n..] == WORKBOOK_BASE;
    assert FOLDER + "/" + "_rels/" + WORKBOOK_BASE + ".rels" == WORKBOOK_LINKS;
  }

  ghost predicate Contains(text: string, piece: string) {
    exists a, b :: text == a + piece + b
  }

  /** The parts fit each other: both have their kind, the relationships theirs, and the workbook's sheet carries the
      id of the relationship that leads to it. */
  lemma PartsRefer()
    ensures Contains(ContentTypes(), Override(WORKBOOK_NAME, "sheet.main"))
    ensures Contains(ContentTypes(), Override(SHEET_NAME, "worksheet"))
    ensures Contains(PackageRelationships(), "/" + "officeDocument" + "\"")
    ensures Contains(WorkbookRelationships(), "/" + "worksheet" + "\"")
    ensures Contains(WorkbookRelationships(), "Id=\"" + LINK_ID + "\"")
    ensures Contains(WorkbookXml(), "r:id=\"" + LINK_ID + "\"")
  {
    hide TypesHead, Override, LinksHead, WorkbookHead, LINK_ID, LINKS_CLOSE, ATTRIBUTE, WORKBOOK_NAME, SHEET_NAME,
      SHEET_TARGET;
    var one, two := Override(WORKBOOK_NAME, "sheet.main"), Override(SHEET_NAME, "worksheet");
    assert ContentTypes() == TypesHead() + one + (two + "</Types>");
    assert ContentTypes() == (TypesHead() + one) + two + "</Types>";
    LinksRefer("officeDocument", WORKBOOK_NAME);
    LinksRefer("worksheet", SHEET_TARGET);
    assert Contains(WorkbookXml(), "r:id=\"" + LINK_ID + "\"");
  }

  lemma LinksRefer(kind: string, target: string)
    ensures Contains(Links(kind, target), "/" + kind + "\"")
    ensures Contains(Links(kind, target), "Id=\"" + LINK_ID + "\"")
  {
    hide LinksHead, LINK_ID, LINKS_CLOSE, ATTRIBUTE;
    var id, kinds := "Id=\"" + LINK_ID + "\"", "/" + kind + "\"";
    var rest := (ATTRIBUTE + "=\"") + (target + ("\"" + LINKS_CLOSE));
    assert Links(kind, target) == LinksHead() + id + (LinkType(kind) + rest);
    var open := " Type=\"http://schemas.openxmlformats.org/officeDocument/2006/relationships";
    hide Links;
    KindIn(LinksHead() + id, open, kinds, rest);
    assert Links(kind, target) == LinksHead() + id + (open + kinds + " ") + rest;
  }

  lemma KindIn(head: string, before: string, piece: string, rest: string)
    ensures Contains(head + (before + piece + " ") + rest, piece)
  {
    assert head + (before + piece + " ") + rest == (head + before) + piece + (" " + rest);
  }

  lemma PartSkipped(name: string, content: string, rest: seq<Zip.File>, wanted: string)
    requires |name| != |wanted|
    ensures FindPart(Zip.Items([Part(name, content)] + rest), wanted) == FindPart(Zip.Items(rest), wanted)
  {
    hide Utf8.Encode, Utf8.Decode;
    Utf8.RoundTrip(name);
    var files := [Part(name, content)] + rest;
    assert files[1..] == rest;
    assert Zip.Items(files)[1..] == Zip.Items(rest);
  }

  lemma PartFound(name: string, content: string, rest: seq<Zip.File>)
    ensures TextOf(Zip.Items([Part(name, content)] + rest), name) == Some(content)
  {
    hide Utf8.Encode, Utf8.Decode;
    Utf8.RoundTrip(name);
    Utf8.RoundTrip(content);
  }

  lemma NamesDiffer()
    ensures |PACKAGE_LINKS| == 11 && |WORKBOOK_NAME| == 15 && |WORKBOOK_LINKS| == 26 && |SHEET_NAME| == 24
  {
  }

  lemma PartsAre(rows: seq<seq<string>>)
    ensures Parts(rows) ==
            [Part("[Content_Types].xml", ContentTypes())]
            + ([Part(PACKAGE_LINKS, PackageRelationships())]
               + ([Part(WORKBOOK_NAME, WorkbookXml())]
                  + ([Part(WORKBOOK_LINKS, WorkbookRelationships())] + ([Part(SHEET_NAME, Sheet(rows))] + []))))
  {
    hide ContentTypes, PackageRelationships, WorkbookXml, WorkbookRelationships, Sheet, Part,
      PACKAGE_LINKS, WORKBOOK_NAME, WORKBOOK_LINKS, SHEET_NAME;
  }

  lemma PartsFound(rows: seq<seq<string>>)
    ensures TextOf(Zip.Items(Parts(rows)), PACKAGE_LINKS) == Some(PackageRelationships())
    ensures TextOf(Zip.Items(Parts(rows)), WORKBOOK_LINKS) == Some(WorkbookRelationships())
    ensures TextOf(Zip.Items(Parts(rows)), SHEET_NAME) == Some(Sheet(rows))
  {
    NamesDiffer();
    PartsAre(rows);
    hide ContentTypes, PackageRelationships, WorkbookXml, WorkbookRelationships, Sheet, Zip.Items, FindPart, Part,
      Parts, Utf8.Decode, PACKAGE_LINKS, WORKBOOK_NAME, WORKBOOK_LINKS, SHEET_NAME;
    var sheet := [Part(SHEET_NAME, Sheet(rows))] + [];
    var links := [Part(WORKBOOK_LINKS, WorkbookRelationships())] + sheet;
    var workbook := [Part(WORKBOOK_NAME, WorkbookXml())] + links;
    var package := [Part(PACKAGE_LINKS, PackageRelationships())] + workbook;
    PartSkipped("[Content_Types].xml", ContentTypes(), package, PACKAGE_LINKS);
    PartSkipped("[Content_Types].xml", ContentTypes(), package, WORKBOOK_LINKS);
    PartSkipped("[Content_Types].xml", ContentTypes(), package, SHEET_NAME);
    PartFound(PACKAGE_LINKS, PackageRelationships(), workbook);
    PartSkipped(PACKAGE_LINKS, PackageRelationships(), workbook, WORKBOOK_LINKS);
    PartSkipped(PACKAGE_LINKS, PackageRelationships(), workbook, SHEET_NAME);
    PartSkipped(WORKBOOK_NAME, WorkbookXml(), links, WORKBOOK_LINKS);
    PartSkipped(WORKBOOK_NAME, WorkbookXml(), links, SHEET_NAME);
    PartFound(WORKBOOK_LINKS, WorkbookRelationships(), sheet);
    PartSkipped(WORKBOOK_LINKS, WorkbookRelationships(), sheet, SHEET_NAME);
    PartFound(SHEET_NAME, Sheet(rows), []);
  }

  lemma PackageReads(rows: seq<seq<string>>)
    requires Zip.Fits(Parts(rows))
    ensures ReadWorkbook(Zip.Archive(Parts(rows))) == ReadSheet(Sheet(rows))
  {
    hide Parts, PackageRelationships, WorkbookRelationships, Sheet, ReadSheet, TextOf, Attribute, Folder, LinksOf,
      Zip.Fits, Zip.Archive, Zip.ReadArchive, Zip.Items, PACKAGE_LINKS, WORKBOOK_NAME, WORKBOOK_LINKS, SHEET_NAME,
      SHEET_TARGET, ATTRIBUTE;
    Zip.RoundTrip(Parts(rows));
    PartsFound(rows);
    Targets();
    Folders();
    assert "" + WORKBOOK_NAME == WORKBOOK_NAME;
  }

  /** Unpacking the archive, finding the sheet, decoding it and reading its XML gives back every text at its own
      row and column with its line ends normalized, unless one holds a character XML forbids: the rows as they
      were if and only if no text holds such a character or a carriage return. */
  lemma WorkbookReads(rows: seq<seq<string>>)
    requires Zip.Fits(Parts(rows))
    ensures Worksheet.ReadsAs(rows, 0, ReadWorkbook(Zip.Archive(Parts(rows))))
  {
    hide *;
    PackageReads(rows);
    SheetReads(rows);
    Worksheet.RoundTrip(rows, 0);
  }
}
