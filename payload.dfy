/** The payload of an NF-e / NFC-e QR code: the lookup URL, in either of its two
    historical encodings, decoded into one record enriched from the access key. */
module NfePayload {
  import opened Text
  import opened Wrappers
  import opened AccessKey

  /** The "unknown" sentinel "—" (U+2014, em dash). */
  const Dash: string := "\U{2014}"

  /** A query string as `parse_qs(query, keep_blank_values=True)` returns it:
      every parameter name with its values, in order of appearance. */
  type Query = map<string, seq<string>>

  /** `(qs.get(name) or [""])[0]`: the first value of a parameter, or "". */
  function FirstValue(qs: Query, name: string): (v: string)
    ensures name !in qs ==> v == ""
    ensures name in qs && |qs[name]| > 0 ==> v == qs[name][0]
  {
    if name in qs && |qs[name]| > 0 then qs[name][0] else ""
  }

  /** The ten raw fields carried by the QR code, each stripped and non-blank, or `Dash`. */
  datatype QrFields = QrFields(
    chave: string, versao: string, tpAmb: string, cDest: string, dhEmi: string,
    vNF: string, vICMS: string, digVal: string, cIdToken: string, cHash: string)

  /** A field value: stripped and non-blank, or the sentinel. */
  predicate IsFieldValue(v: string) {
    v == Dash || (v != "" && Strip(v) == v)
  }

  predicate AllFieldValues(f: QrFields) {
    forall i :: 0 <= i < 10 ==> IsFieldValue(Field(f, i))
  }

  /** Field `i` of the record, in the order of the pipe-separated encoding. */
  function Field(f: QrFields, i: nat): string
    requires i < 10
  {
    match i
    case 0 => f.chave
    case 1 => f.versao
    case 2 => f.tpAmb
    case 3 => f.cDest
    case 4 => f.dhEmi
    case 5 => f.vNF
    case 6 => f.vICMS
    case 7 => f.digVal
    case 8 => f.cIdToken
    case _ => f.cHash
  }

  /** The record whose field `i` is `vals[i]`. */
  function FieldsOf(vals: seq<string>): (f: QrFields)
    requires |vals| == 10
    ensures forall i :: 0 <= i < 10 ==> Field(f, i) == vals[i]
  {
    QrFields(vals[0], vals[1], vals[2], vals[3], vals[4],
             vals[5], vals[6], vals[7], vals[8], vals[9])
  }

  /** A value stripped, or `default` when nothing is left. */
  function OrDefault(raw: string, default: string): (v: string)
    ensures IsFieldValue(default) ==> IsFieldValue(v)
    ensures Strip(raw) != "" ==> v == Strip(raw)
    ensures Strip(raw) == "" ==> v == default
  {
    var s := Strip(raw);
    if s != "" then (StripStripped(s); s) else default
  }

  /** `_g(i)`: pipe-separated part `i`, stripped, or `Dash` when it is missing or blank. */
  function PipeField(parts: seq<string>, i: int): (v: string)
    ensures IsFieldValue(v)
  {
    if 0 <= i < |parts| then OrDefault(parts[i], Dash) else Dash
  }

  /** Format A: `p=chNFe|nVersao|tpAmb|cDest|dhEmi|vNF|vICMS|digVal|cIdToken|cHashQRCode`. */
  function FieldsA(p: string): (f: QrFields)
    ensures AllFieldValues(f)
    ensures forall i :: 0 <= i < 10 ==> Field(f, i) == PipeField(Split(p, '|'), i)
  {
    var parts := Split(p, '|');
    FieldsOf(seq(10, i => PipeField(parts, i)))
  }

  /** `_q(name, default)`: the first value of a named parameter, stripped, or `default`. */
  function Param(qs: Query, name: string, default: string): (v: string)
    ensures IsFieldValue(default) ==> IsFieldValue(v)
    ensures Strip(FirstValue(qs, name)) != "" ==> v == Strip(FirstValue(qs, name))
    ensures Strip(FirstValue(qs, name)) == "" ==> v == default
  {
    OrDefault(FirstValue(qs, name), default)
  }

  /** Format B: one named parameter per field; the version falls back from
      `nVersao` to `versao`; this encoding carries no QR hash. */
  function FieldsB(qs: Query): (f: QrFields)
    ensures AllFieldValues(f)
    ensures f.chave == OrDefault(FirstValue(qs, "chNFe"), Dash)
    ensures Strip(FirstValue(qs, "nVersao")) != "" ==> f.versao == Strip(FirstValue(qs, "nVersao"))
    ensures Strip(FirstValue(qs, "nVersao")) == "" ==> f.versao == OrDefault(FirstValue(qs, "versao"), Dash)
    ensures f.tpAmb == OrDefault(FirstValue(qs, "tpAmb"), Dash)
    ensures f.cDest == OrDefault(FirstValue(qs, "cDest"), Dash)
    ensures f.dhEmi == OrDefault(FirstValue(qs, "dhEmi"), Dash)
    ensures f.vNF == OrDefault(FirstValue(qs, "vNF"), Dash)
    ensures f.vICMS == OrDefault(FirstValue(qs, "vICMS"), Dash)
    ensures f.digVal == OrDefault(FirstValue(qs, "digVal"), Dash)
    ensures f.cIdToken == OrDefault(FirstValue(qs, "cIdToken"), Dash)
    ensures f.cHash == Dash
  {
    FieldsOf([Param(qs, "chNFe", Dash), Param(qs, "nVersao", Param(qs, "versao", Dash)),
              Param(qs, "tpAmb", Dash), Param(qs, "cDest", Dash), Param(qs, "dhEmi", Dash),
              Param(qs, "vNF", Dash), Param(qs, "vICMS", Dash), Param(qs, "digVal", Dash),
              Param(qs, "cIdToken", Dash), Dash])
  }

  /** Format A when the first `p` value contains a pipe, Format B otherwise. */
  function SelectFields(qs: Query): (f: QrFields)
    ensures AllFieldValues(f)
    ensures '|' in FirstValue(qs, "p") ==> f == FieldsA(FirstValue(qs, "p"))
    ensures '|' !in FirstValue(qs, "p") ==> f == FieldsB(qs)
  {
    var pRaw := FirstValue(qs, "p");
    if '|' in pRaw then FieldsA(pRaw) else FieldsB(qs)
  }

  /** The local `_fmt_date`: an ISO timestamp loses everything after its 19th
      character and every 'T' becomes a space; a 14-character compact timestamp
      YYYYMMDDHHMMSS is punctuated as YYYY-MM-DD HH:MM:SS; anything else is kept. */
  function FmtDate(raw: string): (r: string)
    ensures 'T' in raw ==> 'T' !in r && |r| == if |raw| < 19 then |raw| else 19
    ensures 'T' in raw ==> forall i :: 0 <= i < |r| ==> r[i] == if raw[i] == 'T' then ' ' else raw[i]
    ensures 'T' !in raw && |raw| == 14 ==>
      && |r| == 19 && r[4] == '-' && r[7] == '-' && r[10] == ' ' && r[13] == ':' && r[16] == ':'
      && r[..4] == raw[..4] && r[5..7] == raw[4..6] && r[8..10] == raw[6..8]
      && r[11..13] == raw[8..10] && r[14..16] == raw[10..12] && r[17..] == raw[12..]
    ensures 'T' !in raw && |raw| != 14 ==> r == raw
  {
    if 'T' in raw then Replace(raw[..if |raw| < 19 then |raw| else 19], 'T', " ")
    else if |raw| == 14 then
      raw[..4] + "-" + raw[4..6] + "-" + raw[6..8] + " " + raw[8..10] + ":" +
      raw[10..12] + ":" + raw[12..]
    else raw
  }

  /** Characters that `FmtDate` inserts into a compact timestamp. */
  const DatePunct: set<char> := {'-', ' ', ':'}

  /** Deleting the punctuation of a formatted compact timestamp gives it back. */
  lemma FmtDateCompact(raw: string)
    requires |raw| == 14 && AllDigits(raw)
    ensures RemoveChars(FmtDate(raw), DatePunct) == raw
  {
    assert 'T' !in raw;
    DigitsNoneOf(raw, DatePunct);
    assert NoneOf(raw[4..6], DatePunct) && NoneOf(raw[6..8], DatePunct);
    assert NoneOf(raw[8..10], DatePunct) && NoneOf(raw[10..12], DatePunct);
    assert NoneOf(raw[12..], DatePunct) && NoneOf(raw[..4], DatePunct);
    RemoveCharsNone(raw[..4], DatePunct);
    var s := raw[..4];
    RemoveCharsSep(s, '-', raw[4..6], DatePunct);
    s := s + "-" + raw[4..6];
    RemoveCharsSep(s, '-', raw[6..8], DatePunct);
    s := s + "-" + raw[6..8];
    RemoveCharsSep(s, ' ', raw[8..10], DatePunct);
    s := s + " " + raw[8..10];
    RemoveCharsSep(s, ':', raw[10..12], DatePunct);
    s := s + ":" + raw[10..12];
    RemoveCharsSep(s, ':', raw[12..], DatePunct);
    assert raw == raw[..4] + raw[4..6] + raw[6..8] + raw[8..10] + raw[10..12] + raw[12..];
  }

  /** An ISO timestamp "YYYY-MM-DDTHH:MM:SS" followed by anything (fractions of a
      second, a UTC offset) becomes "YYYY-MM-DD HH:MM:SS". */
  lemma FmtDateIso(day: string, time: string, rest: string)
    requires |day| == 10 && |time| == 8 && 'T' !in day && 'T' !in time
    ensures FmtDate(day + "T" + time + rest) == day + " " + time
  {
    var raw := day + "T" + time + rest;
    assert raw[10] == 'T';
    var r := FmtDate(raw);
    assert |r| == 19;
    forall i | 0 <= i < 19
      ensures r[i] == (day + " " + time)[i]
    {
      if i < 10 {
        assert raw[i] == day[i];
      } else if i > 10 {
        assert raw[i] == time[i - 11];
      }
    }
  }

  /** The URL split into the parts the payload uses (`urlparse` + `parse_qs`). */
  datatype UrlParts = UrlParts(scheme: string, netloc: string, path: string, query: Query)

  /** The decoded payload (`parse_nfe_url`'s dictionary). */
  datatype Payload = Payload(
    urlConsulta: string, urlCompleta: string, chaveAcesso: string, versao: string,
    ambiente: string, uf: string, modelo: string, serie: string, numeroNf: string,
    cnpjEmit: string, dataEmissao: string, cpfCnpjDest: string, valorTotal: string,
    valorIcms: string, digestValue: string, idToken: string, hashQr: string)

  /** The recipient id: CPF punctuation for 11 characters, CNPJ punctuation otherwise. */
  function FmtDest(cDest: string): (r: string)
    ensures cDest == Dash ==> r == Dash
    ensures cDest != Dash && |Strip(cDest)| == 11 ==> r == FmtCpf(cDest)
    ensures cDest != Dash && |Strip(cDest)| != 11 ==> r == FmtCnpj(cDest)
  {
    if cDest == Dash then Dash
    else if |Strip(cDest)| == 11 then FmtCpf(cDest)
    else FmtCnpj(cDest)
  }

  /** The emission timestamp: the key's year-month stands in for a missing one. */
  function EmissionDate(dhEmi: string, info: Option<KeyInfo>): (r: string)
    ensures dhEmi != Dash ==> r == FmtDate(dhEmi)
    ensures dhEmi == Dash && info.Some? && info.value.dataEmissao != "" ==>
      r == FmtDate(info.value.dataEmissao)
    ensures dhEmi == Dash && (info.None? || info.value.dataEmissao == "") ==> r == Dash
  {
    assert 'T' !in Dash;
    if dhEmi == Dash && info.Some? && info.value.dataEmissao != "" then
      FmtDate(info.value.dataEmissao)
    else FmtDate(dhEmi)
  }

  /** `parse_nfe_url`, given the URL already split into its parts and `_fmt_value`
      (money formatting) as a parameter. */
  function ParseNfeUrl(u: UrlParts, url: string, fmtValue: string -> string): (r: Payload)
    ensures r.urlConsulta == u.scheme + "://" + u.netloc + u.path && r.urlCompleta == url
    ensures var f := SelectFields(u.query);
      && r.chaveAcesso == f.chave && r.versao == f.versao
      && r.ambiente == Lookup(AmbMap, f.tpAmb)
      && r.dataEmissao == EmissionDate(f.dhEmi, ParseChave(f.chave))
      && r.cpfCnpjDest == FmtDest(f.cDest)
      && r.valorTotal == fmtValue(f.vNF) && r.valorIcms == fmtValue(f.vICMS)
      && r.digestValue == f.digVal && r.idToken == f.cIdToken && r.hashQr == f.cHash
  {
    Enrich(u.scheme + "://" + u.netloc + u.path, url, SelectFields(u.query), fmtValue)
  }

  /** The second half of `parse_nfe_url`: the access key decoded and the raw
      fields formatted into the payload. */
  function Enrich(base: string, url: string, f: QrFields, fmtValue: string -> string): (r: Payload)
    ensures r.urlConsulta == base && r.urlCompleta == url
    ensures r.chaveAcesso == f.chave && r.versao == f.versao
    ensures r.ambiente == Lookup(AmbMap, f.tpAmb)
    ensures r.dataEmissao == EmissionDate(f.dhEmi, ParseChave(f.chave))
    ensures r.cpfCnpjDest == FmtDest(f.cDest)
    ensures r.valorTotal == fmtValue(f.vNF) && r.valorIcms == fmtValue(f.vICMS)
    ensures r.digestValue == f.digVal && r.idToken == f.cIdToken && r.hashQr == f.cHash
  {
    var info := ParseChave(f.chave);
    Payload(
      urlConsulta := base,
      urlCompleta := url,
      chaveAcesso := f.chave,
      versao := f.versao,
      ambiente := Lookup(AmbMap, f.tpAmb),
      uf := if info.Some? then info.value.uf else Dash,
      modelo := if info.Some? then info.value.modelo else Dash,
      serie := if info.Some? then info.value.serie else Dash,
      numeroNf := if info.Some? then info.value.numeroNf else Dash,
      cnpjEmit := if info.Some? then info.value.cnpjEmit else Dash,
      dataEmissao := EmissionDate(f.dhEmi, info),
      cpfCnpjDest := FmtDest(f.cDest),
      valorTotal := fmtValue(f.vNF),
      valorIcms := fmtValue(f.vICMS),
      digestValue := f.digVal,
      idToken := f.cIdToken,
      hashQr := f.cHash)
  }

  /** Format A, field by field: field `i` is pipe-separated part `i` stripped, or
      `Dash` when that part is blank or missing (trailing parts may be left out). */
  lemma FieldsAParts(xs: seq<string>)
    requires |xs| >= 1 && forall k :: 0 <= k < |xs| ==> '|' !in xs[k]
    ensures forall i :: 0 <= i < 10 ==>
      Field(FieldsA(Join(xs, '|')), i) == if i < |xs| then OrDefault(xs[i], Dash) else Dash
  {
    var p := Join(xs, '|');
    SplitJoin(xs, '|');
  }

  /** `qb` is a Format B query whose named parameters carry `xs[0..9]`. */
  predicate CarriesNamed(qb: Query, xs: seq<string>)
    requires |xs| >= 9
  {
    && '|' !in FirstValue(qb, "p")
    && Strip(FirstValue(qb, "versao")) == ""
    && FirstValue(qb, "chNFe") == xs[0] && FirstValue(qb, "nVersao") == xs[1]
    && FirstValue(qb, "tpAmb") == xs[2] && FirstValue(qb, "cDest") == xs[3]
    && FirstValue(qb, "dhEmi") == xs[4] && FirstValue(qb, "vNF") == xs[5]
    && FirstValue(qb, "vICMS") == xs[6] && FirstValue(qb, "digVal") == xs[7]
    && FirstValue(qb, "cIdToken") == xs[8]
  }

  lemma FieldsExtensional(f: QrFields, g: QrFields)
    requires forall i :: 0 <= i < 10 ==> Field(f, i) == Field(g, i)
    ensures f == g
  {
    assert Field(f, 0) == Field(g, 0) && Field(f, 1) == Field(g, 1);
    assert Field(f, 2) == Field(g, 2) && Field(f, 3) == Field(g, 3);
    assert Field(f, 4) == Field(g, 4) && Field(f, 5) == Field(g, 5);
    assert Field(f, 6) == Field(g, 6) && Field(f, 7) == Field(g, 7);
    assert Field(f, 8) == Field(g, 8) && Field(f, 9) == Field(g, 9);
  }

  lemma JoinHasSeparator(xs: seq<string>, c: char)
    requires |xs| >= 2
    ensures c in Join(xs, c)
  {
    var p := Join(xs, c);
    assert p == xs[0] + [c] + Join(xs[1..], c);
    assert p[|xs[0]|] == c;
  }

  /** The two encodings of the same ten values decode to the same payload,
      except that only Format A carries the QR hash. */
  lemma FormatTransparency(u: UrlParts, url: string, fmtValue: string -> string,
                           xs: seq<string>, qa: Query, qb: Query)
    requires |xs| == 10 && forall k :: 0 <= k < 10 ==> '|' !in xs[k]
    requires FirstValue(qa, "p") == Join(xs, '|')
    requires CarriesNamed(qb, xs)
    ensures ParseNfeUrl(u.(query := qa), url, fmtValue) ==
            ParseNfeUrl(u.(query := qb), url, fmtValue).(hashQr := OrDefault(xs[9], Dash))
  {
    JoinHasSeparator(xs, '|');
    var fa := SelectFields(qa);
    var fb := SelectFields(qb);
    assert fa == FieldsA(Join(xs, '|'));
    assert fb == FieldsB(qb);
    FieldsAParts(xs);
    FieldsExtensional(fa, fb.(cHash := OrDefault(xs[9], Dash)));
  }

  /** The state, model, series, number and issuer CNPJ come from the access key
      alone: decoded from a well-formed key, and the sentinel otherwise. */
  lemma KeyPrecedence(base: string, url: string, f: QrFields, fmtValue: string -> string)
    ensures var r := Enrich(base, url, f, fmtValue);
      var c := Strip(f.chave);
      if IsAccessKey(c) then
        && r.uf == Lookup(UfMap, c[0..2]) && r.modelo == Lookup(ModMap, c[20..22])
        && r.serie == CanonicalDigits(c[22..25]) && r.numeroNf == CanonicalDigits(c[25..34])
        && RemoveChars(r.cnpjEmit, TaxIdPunct) == c[6..20]
      else
        r.uf == Dash && r.modelo == Dash && r.serie == Dash && r.numeroNf == Dash &&
        r.cnpjEmit == Dash
  {
  }

  /** A year-month "20AA-MM" taken from a key is left alone by `FmtDate`. */
  lemma FmtDateYearMonth(c: string)
    requires IsAccessKey(c)
    ensures var ym := "20" + c[2..4] + "-" + c[4..6]; FmtDate(ym) == ym
  {
    var ym := "20" + c[2..4] + "-" + c[4..6];
    assert |ym| == 7;
    assert ym[0] == '2' && ym[1] == '0' && ym[4] == '-';
    assert ym[2] == c[2] && ym[3] == c[3] && ym[5] == c[4] && ym[6] == c[5];
    assert 'T' !in ym;
  }

  /** The emission timestamp: formatted when present; otherwise the key's
      year-month "20AA-MM" when the key is well formed, and the sentinel when not. */
  lemma EmissionDateFallback(dhEmi: string, chave: string)
    ensures var r := EmissionDate(dhEmi, ParseChave(chave));
      var c := Strip(chave);
      && (dhEmi == Dash && IsAccessKey(c) ==> r == "20" + c[2..4] + "-" + c[4..6])
      && (dhEmi == Dash && !IsAccessKey(c) ==> r == Dash)
      && (dhEmi != Dash ==> r == FmtDate(dhEmi))
  {
    var c := Strip(chave);
    if dhEmi == Dash {
      if IsAccessKey(c) {
        FmtDateYearMonth(c);
      } else {
        assert 'T' !in Dash;
      }
    }
  }

  /** The recipient id: the sentinel exactly when absent; 11 characters get the
      14-character CPF form and 14 characters the 18-character CNPJ form; deleting
      the punctuation gives the id back. */
  lemma FmtDestForms(d: string)
    requires IsFieldValue(d)
    ensures var r := FmtDest(d);
      && (r == Dash <==> d == Dash)
      && (d != Dash && |d| == 11 ==> |r| == 14 && r[3] == '.' && r[11] == '-')
      && (d != Dash && |d| == 14 ==> |r| == 18 && r[2] == '.' && r[10] == '/')
      && (d != Dash && NoPunct(d) ==> RemoveChars(r, TaxIdPunct) == d)
  {
    if d != Dash && NoPunct(d) {
      if |d| == 11 { FmtCpfUnformat(d); } else { FmtCnpjUnformat(d); }
    }
  }
}
