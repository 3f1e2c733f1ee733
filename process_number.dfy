/** `splitNumeroProcesso` and the case-search URL of
    src/services/robot.service.ts. A case number such as
    "1027910-13.2022.8.26.0002" is split on '.'; its parts are read by
    position and nothing checks how many there are. */
module ProcessNumber {

  import opened Wrappers
  import opened JsString

  /** The five named fields; `None` is JavaScript's `undefined`, which is what
      indexing past the end of the split gives. */
  datatype ProcessParts = ProcessParts(
    numeroDigito: Option<string>,
    ano: Option<string>,
    orgao: Option<string>,
    tribunal: Option<string>,
    numeroForo: Option<string>)

  /** `parts[i]` of a JavaScript array. */
  function At(parts: seq<string>, i: nat): (r: Option<string>)
    ensures r.Some? <==> i < |parts|
    ensures r.Some? ==> r.value == parts[i]
  {
    if i < |parts| then Some(parts[i]) else None
  }

  function SplitNumeroProcesso(numeroProcesso: string): (r: ProcessParts)
  {
    var p := Split(numeroProcesso, '.');
    ProcessParts(At(p, 0), At(p, 1), At(p, 2), At(p, 3), At(p, 4))
  }

  /** The fields in order, as the text they stand for. */
  function Fields(r: ProcessParts): seq<Option<string>> {
    [r.numeroDigito, r.ano, r.orgao, r.tribunal, r.numeroForo]
  }

  /** Field `i` is the `i`-th '.'-separated part when there is one and
      `undefined` otherwise: too few parts leave the trailing fields
      undefined, and parts after the fifth are ignored. The first field is
      always there and is the text before the first '.'. */
  lemma {:induction false} SplitFields(numeroProcesso: string)
    ensures var p := Split(numeroProcesso, '.'); var f := Fields(SplitNumeroProcesso(numeroProcesso));
      forall i :: 0 <= i < 5 ==> (f[i].Some? <==> i < |p|) && (f[i].Some? ==> f[i].value == p[i])
    ensures var d := SplitNumeroProcesso(numeroProcesso).numeroDigito;
      d.Some? && '.' !in d.value && d.value <= numeroProcesso
  {
    SplitFirstIsPrefix(numeroProcesso, '.');
  }

  /** A number made of five dot-free parts splits into exactly those parts,
      and joining the fields with '.' gives the number back. */
  lemma {:induction false} SplitCanonical(a: string, b: string, c: string, d: string, e: string)
    requires '.' !in a && '.' !in b && '.' !in c && '.' !in d && '.' !in e
    ensures var n := a + "." + b + "." + c + "." + d + "." + e;
      SplitNumeroProcesso(n) == ProcessParts(Some(a), Some(b), Some(c), Some(d), Some(e))
      && Join([a, b, c, d, e], '.') == n
  {
    var parts := [a, b, c, d, e];
    var n := a + "." + b + "." + c + "." + d + "." + e;
    JoinFive(parts, '.');
    assert Join(parts, '.') == n;
    SplitJoin(parts, '.');
  }

  /** Anything after a fifth '.' does not change the fields. */
  lemma {:induction false} ExtraPartsIgnored(a: string, b: string, c: string, d: string, e: string, more: string)
    requires '.' !in a && '.' !in b && '.' !in c && '.' !in d && '.' !in e
    ensures var n := a + "." + b + "." + c + "." + d + "." + e;
      SplitNumeroProcesso(n + "." + more) == SplitNumeroProcesso(n)
  {
    var n := a + "." + b + "." + c + "." + d + "." + e;
    SplitCanonical(a, b, c, d, e);
    SplitAppend(n, '.', more);
  }

  /** The number from the source's own list. */
  lemma SplitExample()
    ensures SplitNumeroProcesso("1027910-13.2022.8.26.0002")
      == ProcessParts(Some("1027910-13"), Some("2022"), Some("8"), Some("26"), Some("0002"))
  {
    assert "1027910-13.2022.8.26.0002" == "1027910-13" + "." + "2022" + "." + "8" + "." + "26" + "." + "0002";
    SplitCanonical("1027910-13", "2022", "8", "26", "0002");
  }

  /** How a template literal renders a field: `undefined` renders as the
      word "undefined". */
  function Render(o: Option<string>): string {
    match o
    case None => "undefined"
    case Some(s) => s
  }

  const SearchBase := "https://esaj.tjsp.jus.br/cpopg/search.do?conversationId=&cbPesquisa=NUMPROC&numeroDigitoAnoUnificado="
  const ForoParam := "&foroNumeroUnificado="
  const NumberParam := "&dadosConsulta.valorConsultaNuUnificado="
  const SearchTail := "&dadosConsulta.valorConsultaNuUnificado=UNIFICADO&dadosConsulta.valorConsulta=&dadosConsulta.tipoNuProcesso=UNIFICADO"

  /** The search URL that both extractors build from a case number. */
  function SearchUrl(numeroProcesso: string): (url: string)
    ensures SearchBase <= url
    ensures var t := NumberParam + numeroProcesso + SearchTail;
      |t| <= |url| && url[|url| - |t|..] == t
  {
    var p := SplitNumeroProcesso(numeroProcesso);
    var middle := Render(p.numeroDigito) + Render(p.ano) + ForoParam + Render(p.numeroForo);
    var tail := NumberParam + numeroProcesso + SearchTail;
    Affixes(SearchBase, middle, tail);
    SearchBase + middle + tail
  }

  /** `x` begins and `y` ends `x + m + y`. */
  lemma Affixes(x: string, m: string, y: string)
    ensures x <= x + m + y
    ensures |y| <= |x + m + y| && (x + m + y)[|x + m + y| - |y|..] == y
  {
  }

  /** For a five-part number the URL carries the first two parts run
      together, the fifth part, and the number itself. */
  lemma SearchUrlCanonical(a: string, b: string, c: string, d: string, e: string)
    requires '.' !in a && '.' !in b && '.' !in c && '.' !in d && '.' !in e
    ensures var n := a + "." + b + "." + c + "." + d + "." + e;
      SearchUrl(n) == SearchBase + (a + b + ForoParam + e) + (NumberParam + n + SearchTail)
  {
    SplitCanonical(a, b, c, d, e);
  }
}
