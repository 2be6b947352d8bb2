/** The NF-e / NFC-e access key ("chave de acesso"): 44 decimal digits laid out as
    cUF(2) AAMM(4) CNPJ(14) mod(2) serie(3) nNF(9) tpEmis(1) cNF(8) cDV(1),
    and the CNPJ / CPF punctuation used to display tax ids. */
module AccessKey {
  import opened Text
  import opened Wrappers

  /** IBGE state code to state abbreviation (`_UF_MAP`). */
  const UfMap: map<string, string> := map[
    "11" := "RO", "12" := "AC", "13" := "AM", "14" := "RR", "15" := "PA", "16" := "AP",
    "17" := "TO", "21" := "MA", "22" := "PI", "23" := "CE", "24" := "RN", "25" := "PB",
    "26" := "PE", "27" := "AL", "28" := "SE", "29" := "BA", "31" := "MG", "32" := "ES",
    "33" := "RJ", "35" := "SP", "41" := "PR", "42" := "SC", "43" := "RS", "50" := "MS",
    "51" := "MT", "52" := "GO", "53" := "DF"]

  /** Document model code to model name (`_MOD_MAP`). */
  const ModMap: map<string, string> := map["55" := "NF-e", "65" := "NFC-e"]

  /** Environment code to environment name (`_AMB_MAP`): "Produção", "Homologação". */
  const AmbMap: map<string, string> :=
    map["1" := "Produ\U{00E7}\U{00E3}o", "2" := "Homologa\U{00E7}\U{00E3}o"]

  /** `table.get(code, code)`: the table's entry, or the code itself when it has none. */
  function Lookup(table: map<string, string>, code: string): (r: string)
    ensures code in table ==> r == table[code]
    ensures code !in table ==> r == code
  {
    if code in table then table[code] else code
  }

  /** Characters that the CNPJ / CPF formats insert. */
  const TaxIdPunct: set<char> := {'.', '/', '-'}

  predicate NoPunct(s: string) {
    NoneOf(s, TaxIdPunct)
  }

  /** `_fmt_cnpj`: a 14-character id (after stripping) as XX.XXX.XXX/XXXX-XX;
      any other length is returned stripped. */
  function FmtCnpj(raw: string): (r: string)
    ensures var c := Strip(raw);
      if |c| == 14 then
        |r| == 18 && r[2] == '.' && r[6] == '.' && r[10] == '/' && r[15] == '-'
      else r == c
  {
    var c := Strip(raw);
    if |c| == 14 then c[..2] + "." + c[2..5] + "." + c[5..8] + "/" + c[8..12] + "-" + c[12..]
    else c
  }

  /** `_fmt_cpf`: an 11-character id (after stripping) as XXX.XXX.XXX-XX;
      any other length is returned stripped. */
  function FmtCpf(raw: string): (r: string)
    ensures var c := Strip(raw);
      if |c| == 11 then
        |r| == 14 && r[3] == '.' && r[7] == '.' && r[11] == '-'
      else r == c
  {
    var c := Strip(raw);
    if |c| == 11 then c[..3] + "." + c[3..6] + "." + c[6..9] + "-" + c[9..]
    else c
  }

  /** Deleting the punctuation `_fmt_cnpj` inserted gives back the stripped input. */
  lemma FmtCnpjUnformat(raw: string)
    requires NoPunct(Strip(raw))
    ensures RemoveChars(FmtCnpj(raw), TaxIdPunct) == Strip(raw)
  {
    var c := Strip(raw);
    if |c| == 14 {
      RemoveCharsNone(c[..2], TaxIdPunct);
      RemoveCharsSep(c[..2], '.', c[2..5], TaxIdPunct);
      RemoveCharsSep(c[..2] + "." + c[2..5], '.', c[5..8], TaxIdPunct);
      RemoveCharsSep(c[..2] + "." + c[2..5] + "." + c[5..8], '/', c[8..12], TaxIdPunct);
      RemoveCharsSep(c[..2] + "." + c[2..5] + "." + c[5..8] + "/" + c[8..12], '-', c[12..], TaxIdPunct);
      assert c == c[..2] + c[2..5] + c[5..8] + c[8..12] + c[12..];
    } else {
      RemoveCharsNone(c, TaxIdPunct);
    }
  }

  /** Deleting the punctuation `_fmt_cpf` inserted gives back the stripped input. */
  lemma FmtCpfUnformat(raw: string)
    requires NoPunct(Strip(raw))
    ensures RemoveChars(FmtCpf(raw), TaxIdPunct) == Strip(raw)
  {
    var c := Strip(raw);
    if |c| == 11 {
      RemoveCharsNone(c[..3], TaxIdPunct);
      RemoveCharsSep(c[..3], '.', c[3..6], TaxIdPunct);
      RemoveCharsSep(c[..3] + "." + c[3..6], '.', c[6..9], TaxIdPunct);
      RemoveCharsSep(c[..3] + "." + c[3..6] + "." + c[6..9], '-', c[9..], TaxIdPunct);
      assert c == c[..3] + c[3..6] + c[6..9] + c[9..];
    } else {
      RemoveCharsNone(c, TaxIdPunct);
    }
  }

  /** The decoded fields of an access key (`_parse_chave`'s dictionary). */
  datatype KeyInfo = KeyInfo(
    uf: string,          // state abbreviation, or the raw code when unknown
    ufCod: string,       // cUF
    dataEmissao: string, // emission year-month "YYYY-MM"
    cnpjEmit: string,    // issuer CNPJ, punctuated
    modelo: string,      // "NF-e", "NFC-e", or the raw code
    serie: string,       // series without leading zeros
    numeroNf: string,    // number without leading zeros
    tpEmis: string,      // emission type
    codNum: string,      // numeric code cNF
    dv: string)          // check digit, extracted and not validated

  predicate IsAccessKey(c: string) {
    |c| == 44 && AllDigits(c)
  }

  /** `f"{int(aa) + 2000:04d}-{int(mm):02d}"` for the AAMM field: "20" followed
      by AA, a dash and MM, verbatim; the month is zero padded and not range
      checked. */
  function YearMonth(aamm: string): (r: string)
    requires |aamm| == 4 && AllDigits(aamm)
    ensures r == "20" + aamm[..2] + "-" + aamm[2..]
  {
    var yy, mm := aamm[..2], aamm[2..];
    ParseAppend("20", yy);
    assert ParseDigits("20") == 20 by { assert "20"[..1] == "2"; }
    ZeroPadParse("20" + yy);
    ZeroPadParse(mm);
    ZeroPad(ParseDigits(yy) + 2000, 4) + "-" + ZeroPad(ParseDigits(mm), 2)
  }

  /** `_parse_chave`: the decoded fields when the stripped input is exactly 44
      ASCII digits, and no fields at all (never some of them) otherwise. */
  function ParseChave(chave: string): (r: Option<KeyInfo>)
    ensures r.Some? <==> IsAccessKey(Strip(chave))
    ensures r.Some? ==> r.value == DecodeKey(Strip(chave))
  {
    var c := Strip(chave);
    if |c| != 44 || !AllDigits(c) then None else Some(DecodeKey(c))
  }

  /** The fixed-offset fields of a well-formed key, in terms of its digits: four
      verbatim slices, the year-month "20AA-MM", the punctuated CNPJ, the two
      looked-up names and the series and number without leading zeros. */
  function DecodeKey(c: string): (r: KeyInfo)
    requires IsAccessKey(c)
    ensures r.ufCod == c[0..2] && r.uf == Lookup(UfMap, c[0..2])
    ensures r.dataEmissao == "20" + c[2..4] + "-" + c[4..6]
    ensures RemoveChars(r.cnpjEmit, TaxIdPunct) == c[6..20]
    ensures r.modelo == Lookup(ModMap, c[20..22])
    ensures r.serie == CanonicalDigits(c[22..25]) && r.numeroNf == CanonicalDigits(c[25..34])
    ensures r.tpEmis == [c[34]] && r.codNum == c[35..43] && r.dv == [c[43]]
  {
    assert c[2..6][..2] == c[2..4] && c[2..6][2..] == c[4..6];
    StripDigits(c[6..20]);
    FmtCnpjUnformat(c[6..20]);
    ShowParseCanonical(c[22..25]);
    ShowParseCanonical(c[25..34]);
    KeyInfo(
      uf := Lookup(UfMap, c[0..2]),
      ufCod := c[0..2],
      dataEmissao := YearMonth(c[2..6]),
      cnpjEmit := FmtCnpj(c[6..20]),
      modelo := Lookup(ModMap, c[20..22]),
      serie := ShowNat(ParseDigits(c[22..25])),
      numeroNf := ShowNat(ParseDigits(c[25..34])),
      tpEmis := [c[34]],
      codNum := c[35..43],
      dv := [c[43]])
  }

  function Pow10(n: nat): nat {
    if n == 0 then 1 else 10 * Pow10(n - 1)
  }

  lemma {:induction false} ParseAppend(a: string, b: string)
    requires AllDigits(a) && AllDigits(b)
    ensures AllDigits(a + b)
    ensures ParseDigits(a + b) == ParseDigits(a) * Pow10(|b|) + ParseDigits(b)
    decreases |b|
  {
    if b == [] {
      assert a + b == a;
    } else {
      var b' := b[..|b| - 1];
      assert (a + b)[..|a + b| - 1] == a + b';
      ParseAppend(a, b');
      var d := DigitValue(b[|b| - 1]);
      assert (a + b)[|a + b| - 1] == b[|b| - 1];
      assert ParseDigits(a + b) == ParseDigits(a + b') * 10 + d;
      assert ParseDigits(b) == ParseDigits(b') * 10 + d;
      assert Pow10(|b|) == Pow10(|b'|) * 10;
      ShiftDigit(ParseDigits(a), Pow10(|b'|), ParseDigits(b'), d);
    }
  }

  lemma ShiftDigit(x: int, p: int, y: int, d: int)
    ensures (x * p + y) * 10 + d == x * (p * 10) + (y * 10 + d)
  {
  }

  /** Zero padding `int(s)` to the width of `s` gives `s` back. */
  lemma ZeroPadParse(s: string)
    requires |s| >= 1 && AllDigits(s)
    ensures ZeroPad(ParseDigits(s), |s|) == s
  {
    ShowParseCanonical(s);
    DropLeadingZerosCuts(s);
    var t := DropLeadingZeros(s);
    if t == [] {
      assert s == seq(|s| - 1, _ => '0') + "0";
    } else {
      assert s == seq(|s| - |t|, _ => '0') + t;
    }
  }

  /** The state abbreviation differs from the state code exactly when the code
      is one of the 27 known ones. */
  lemma UfKnown(c: string)
    requires IsAccessKey(c)
    ensures var r := DecodeKey(c);
      r.uf != r.ufCod <==> r.ufCod in UfMap
  {
    var r := DecodeKey(c);
    if r.ufCod in UfMap {
      var v := UfMap[r.ufCod];
      assert !IsDigit(v[0]);
    }
  }

  /** The nine fields of the key layout, as digit strings. */
  datatype KeyParts = KeyParts(
    cUF: string, aamm: string, cnpj: string, mod: string, serie: string,
    nNF: string, tpEmis: string, cNF: string, cDV: string)

  predicate DigitField(s: string, width: nat) {
    |s| == width && AllDigits(s)
  }

  predicate WellFormedParts(p: KeyParts) {
    DigitField(p.cUF, 2) && DigitField(p.aamm, 4) && DigitField(p.cnpj, 14) &&
    DigitField(p.mod, 2) && DigitField(p.serie, 3) && DigitField(p.nNF, 9) &&
    DigitField(p.tpEmis, 1) && DigitField(p.cNF, 8) && DigitField(p.cDV, 1)
  }

  /** The key laid out field after field. */
  function ComposeKey(p: KeyParts): string {
    p.cUF + p.aamm + p.cnpj + p.mod + p.serie + p.nNF + p.tpEmis + p.cNF + p.cDV
  }

  /** Every key is the layout of its nine fields. */
  lemma KeyIsComposed(c: string)
    requires IsAccessKey(c)
    ensures var p := KeyParts(c[0..2], c[2..6], c[6..20], c[20..22], c[22..25],
                              c[25..34], c[34..35], c[35..43], c[43..44]);
      WellFormedParts(p) && ComposeKey(p) == c
  {
    var p := KeyParts(c[0..2], c[2..6], c[6..20], c[20..22], c[22..25],
                      c[25..34], c[34..35], c[35..43], c[43..44]);
    assert ComposeKey(p) == c;
  }

  /** Decoding a key laid out from nine digit fields gives back each field:
      verbatim, looked up, punctuated, or without leading zeros. */
  lemma ComposeDecode(p: KeyParts)
    requires WellFormedParts(p)
    ensures IsAccessKey(ComposeKey(p))
    ensures DecodeKey(ComposeKey(p)) ==
      KeyInfo(Lookup(UfMap, p.cUF), p.cUF, "20" + p.aamm[..2] + "-" + p.aamm[2..],
              FmtCnpj(p.cnpj), Lookup(ModMap, p.mod), CanonicalDigits(p.serie),
              CanonicalDigits(p.nNF), p.tpEmis, p.cNF, p.cDV)
  {
    var c := ComposeKey(p);
    assert c[0..2] == p.cUF && c[2..6] == p.aamm && c[6..20] == p.cnpj;
    assert c[20..22] == p.mod && c[22..25] == p.serie && c[25..34] == p.nNF;
    assert [c[34]] == p.tpEmis && c[35..43] == p.cNF && [c[43]] == p.cDV;
    assert IsAccessKey(c);
    ShowParseCanonical(p.serie);
    ShowParseCanonical(p.nNF);
  }

  const ExampleParts := KeyParts("35", "2101", "12345678000199", "65", "001", "000012345",
                                  "1", "12345678", "9")

  lemma ExamplePartsWellFormed()
    ensures WellFormedParts(ExampleParts)
  {
  }

  lemma ExampleLookups()
    ensures Lookup(UfMap, "35") == "SP" && Lookup(ModMap, "65") == "NFC-e"
  {
  }

  lemma ExampleFormats()
    ensures "20" + "2101"[..2] + "-" + "2101"[2..] == "2021-01"
    ensures FmtCnpj("12345678000199") == "12.345.678/0001-99"
  {
    var c := "12345678000199";
    StripDigits(c);
    assert c[..2] == "12" && c[2..5] == "345" && c[5..8] == "678";
    assert c[8..12] == "0001" && c[12..] == "99";
  }

  lemma ExampleCanonical()
    ensures CanonicalDigits("001") == "1" && CanonicalDigits("000012345") == "12345"
  {
    assert DropLeadingZeros("001") == "1";
    assert DropLeadingZeros("000012345") == "12345";
  }

  /** The worked example: a consumer receipt key issued in SP in January 2021. */
  lemma ParseChaveExample()
    ensures ParseChave("35" + "2101" + "12345678000199" + "65" + "001" + "000012345" +
                       "1" + "12345678" + "9") ==
      Some(KeyInfo("SP", "35", "2021-01", "12.345.678/0001-99", "NFC-e",
                   "1", "12345", "1", "12345678", "9"))
  {
    ExamplePartsWellFormed();
    ExampleLookups();
    ExampleFormats();
    ExampleCanonical();
    ComposeDecode(ExampleParts);
    StripDigits(ComposeKey(ExampleParts));
  }
}
