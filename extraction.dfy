/** What the scraper reads off a case page, in src/services/robot.service.ts:
    the movement table of `extrairAndamentos` and the metadata fields of
    `extrairMetadados`. The page is given as data: each table row as the
    texts of its cells, each metadata element as its text or `None` when the
    selector finds nothing. */
module Extraction {

  import opened Wrappers
  import opened JsString

  /** One `{data, texto}` entry of the movement list. */
  datatype Movement = Movement(data: string, texto: string)

  /** `cols[i]?.text.trim() || ''`. */
  function CellText(cols: seq<string>, i: int): (r: string)
    ensures (0 <= i < |cols|) ==> r == Trim(cols[i])
    ensures !(0 <= i < |cols|) ==> r == ""
    ensures Trimmed(r)
  {
    if 0 <= i < |cols| then Trim(cols[i]) else ""
  }

  /** The row mapping: the trimmed first cell is the date and the trimmed
      last cell the text. */
  function RowToMovement(cols: seq<string>): (m: Movement)
    ensures |cols| == 0 ==> m == Movement("", "")
    ensures |cols| > 0 ==> m.data == Trim(cols[0]) && m.texto == Trim(cols[|cols| - 1])
    ensures |cols| == 1 ==> m.data == m.texto
    ensures Trimmed(m.data) && Trimmed(m.texto)
  {
    var last := |cols| - 1;
    assert |cols| == 1 ==> last == 0;
    Movement(CellText(cols, 0), CellText(cols, last))
  }

  /** `tableRows.map(...)` over the rows of `#tabelaTodasMovimentacoes`;
      a page without the table gives no rows. */
  function Movements(table: Option<seq<seq<string>>>): (r: seq<Movement>)
    ensures table.None? ==> r == []
    ensures table.Some? ==> |r| == |table.value|
    ensures table.Some? ==> forall i :: 0 <= i < |r| ==> r[i] == RowToMovement(table.value[i])
  {
    match table
    case None => []
    case Some(rows) => MapRows(rows)
  }

  function MapRows(rows: seq<seq<string>>): (r: seq<Movement>)
    ensures |r| == |rows|
    ensures forall i :: 0 <= i < |r| ==> r[i] == RowToMovement(rows[i])
  {
    if rows == [] then [] else [RowToMovement(rows[0])] + MapRows(rows[1..])
  }

  /** The movement list keeps the order of the rows: the list of a table
      with rows appended is the list of the first rows followed by the list
      of the appended ones. */
  lemma {:induction false} MovementsInOrder(rows: seq<seq<string>>, more: seq<seq<string>>)
    ensures MapRows(rows + more) == MapRows(rows) + MapRows(more)
  {
    if rows != [] {
      assert (rows + more)[1..] == rows[1..] + more;
      MovementsInOrder(rows[1..], more);
    } else {
      assert rows + more == more;
    }
  }

  /** The elements `extrairMetadados` reads, by id. */
  datatype CaseElements = CaseElements(
    classe: Option<string>,
    assunto: Option<string>,
    foro: Option<string>,
    vara: Option<string>,
    juiz: Option<string>,
    area: Option<string>,
    valorAcao: Option<string>)

  /** The metadata record. */
  datatype Metadata = Metadata(
    classeProcesso: string,
    assuntoProcesso: string,
    foroProcesso: string,
    varaProcesso: string,
    juizProcesso: string,
    areaProcesso: string,
    valorAcaoProcesso: string)

  /** `querySelector(id)?.text.trim() || ''`. */
  function FieldText(e: Option<string>): (r: string)
    ensures e.None? ==> r == ""
    ensures e.Some? ==> r == Trim(e.value)
    ensures Trimmed(r)
  {
    match e
    case None => ""
    case Some(t) => Trim(t)
  }

  /** The claim value as written: trimmed, then the first "R$ " removed, the
      first "." removed and the first "," turned into ".". Each `replace`
      has a string pattern, so it acts on one occurrence only. */
  function NormalizeClaim(t: string): string {
    ReplaceFirst(ReplaceFirst(ReplaceFirst(Trim(t), "R$ ", ""), ".", ""), ",", ".")
  }

  /** `...?.text.trim().replace(...).replace(...).replace(...) || ''`. */
  function ClaimValue(e: Option<string>): (r: string)
    ensures e.None? ==> r == ""
    ensures e.Some? ==> r == NormalizeClaim(e.value)
  {
    match e
    case None => ""
    case Some(t) => NormalizeClaim(t)
  }

  function MetadataOf(page: CaseElements): (m: Metadata)
    ensures m.classeProcesso == FieldText(page.classe) && m.assuntoProcesso == FieldText(page.assunto)
    ensures m.foroProcesso == FieldText(page.foro) && m.varaProcesso == FieldText(page.vara)
    ensures m.juizProcesso == FieldText(page.juiz) && m.areaProcesso == FieldText(page.area)
    ensures m.valorAcaoProcesso == ClaimValue(page.valorAcao)
  {
    Metadata(FieldText(page.classe), FieldText(page.assunto), FieldText(page.foro),
             FieldText(page.vara), FieldText(page.juiz), FieldText(page.area),
             ClaimValue(page.valorAcao))
  }

  /** A Brazilian amount "R$ <thousands>.<rest>,<cents>" whose thousands group
      has no '.' or ',', and whose rest has no ',': the result is the digits
      with the first dot dropped and the comma turned into a dot; any dot
      after the first, and anything after the comma, is left as it was. */
  lemma NormalizeAmount(a: string, b: string, c: string)
    requires '.' !in a && ',' !in a && ',' !in b
    requires |c| == 0 || !IsSpace(c[|c| - 1])
    ensures NormalizeClaim("R$ " + a + "." + b + "," + c) == a + b + "." + c
  {
    var rest := a + "." + b + "," + c;
    var tail := b + "," + c;
    var u := a + b + "," + c;
    assert rest == a + ['.'] + tail;
    assert a + "" + tail == u;
    assert u == (a + b) + [','] + c;
    assert "R$ " + rest == "R$ " + a + "." + b + "," + c;
    assert "" + rest == rest;
    assert ',' !in a + b;
    AmountIsTrimmed(rest);
    ReplaceFirstAtStart("R$ ", rest, "");
    ReplaceFirstCharAfter(a, '.', tail, "");
    ReplaceFirstCharAfter(a + b, ',', c, ".");
  }

  lemma AmountIsTrimmed(rest: string)
    requires |rest| > 0 && !IsSpace(rest[|rest| - 1])
    ensures Trim("R$ " + rest) == "R$ " + rest
  {
    TrimOfTrimmed("R$ " + rest);
  }

  /** The normalisation of an amount in the format the court site shows. */
  lemma ClaimExample()
    ensures NormalizeClaim("R$ 12.345,67") == "12345.67"
  {
    var a, b, c := "12", "345", "67";
    assert "R$ 12.345,67" == "R$ " + a + "." + b + "," + c;
    assert a + b + "." + c == "12345.67";
    assert !IsSpace(c[1]);
    NormalizeAmount(a, b, c);
  }

  /** A second dot survives: only the first one is removed. */
  lemma ClaimExampleMillions()
    ensures NormalizeClaim("R$ 1.234.567,89") == "1234.567.89"
  {
    var a, b, c := "1", "234.567", "89";
    assert "R$ 1.234.567,89" == "R$ " + a + "." + b + "," + c;
    assert a + b + "." + c == "1234.567.89";
    assert !IsSpace(c[1]);
    NormalizeAmount(a, b, c);
  }
}
