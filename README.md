# Offline NF-e / NFC-e decode path of notas_master_bot, in Dafny

The bot receives a photo of a Brazilian fiscal receipt. It finds the receipt's
QR code and decodes the lookup URL the code carries. From that URL and its
44-digit access key ("chave de acesso") it builds the receipt's record. This
project models the part of that path that runs without the network:

- `access_key.dfy` (module `AccessKey`) covers `_parse_chave`, the lookup
  tables `_UF_MAP`/`_MOD_MAP`/`_AMB_MAP`, and `_fmt_cnpj`/`_fmt_cpf`.
- `payload.dfy` (module `NfePayload`) covers `parse_nfe_url`, including its
  inner `_g`, `_q` and `_fmt_date`:
  - the two URL encodings (a pipe-separated `p` parameter, or one named
    parameter per field);
  - the "—" (U+2014) sentinel;
  - the precedence of the access key over the URL for state, model, series,
    number and issuer CNPJ;
  - the year-month fallback for the emission date;
  - CPF/CNPJ punctuation of the recipient.
- `qr_search.dfy` (module `QrSearch`) covers `_try_decoders` and the staged
  search of `detect_and_crop_qr`:
  - the backends are tried in the order WeChat, zbar, OpenCV;
  - the image candidates are tried in order: every preprocessed variant, then
    the small rotations −20°…20° in steps of 5° without 0° over three bases,
    then the quarter turns, colour before grey;
  - the first decode wins;
  - the crop box is found by floor division by the scale, 12 pixels of
    padding and clamping, with the central 60% used for rotated hits.

  Images, image operations and decoder backends are opaque parameters. The
  staged search is imperative: loops with early exits, each proved equal to a
  specification function over the list of candidates.
- `bot_helpers.dfy` (module `BotHelpers`) covers:
  - `_clean_address`;
  - `_h` (HTML escaping);
  - `get_role`/`has_permission` with `ROLE_PERMISSIONS`;
  - `_MemLogHandler`, a class whose bounded buffer keeps the last `maxlen`
    lines.
- `text.dfy` (module `Text`) holds the Python `str` operations these are
  built from:
  - `strip` with Python's white-space set;
  - `isdigit`, `int` and `str` on decimal digits;
  - `split`/`join` on one character;
  - `replace`;
  - zero padding.
- `wrappers.dfy` holds `Option`.

Python's `//` on the positive scales of the crop box is Dafny's `/`: both
floor when the divisor is positive.

## Model

| member | source | states |
|---|---|---|
| AccessKey.Lookup | bot.py:1454-1462 | a code in the table maps to its entry; any other code is returned unchanged (`dict.get(code, code)`) |
| AccessKey.FmtCnpj | bot.py:1494-1498 | a 14-character stripped id becomes 18 characters with '.', '.', '/', '-' at positions 2, 6, 10, 15; any other length is returned stripped |
| AccessKey.FmtCpf | bot.py:1501-1505 | an 11-character stripped id becomes 14 characters with '.', '.', '-' at positions 3, 7, 11; any other length is returned stripped |
| AccessKey.FmtCnpjUnformat | bot.py:1494-1498 | deleting '.', '/' and '-' from the CNPJ form gives back the stripped input |
| AccessKey.FmtCpfUnformat | bot.py:1501-1505 | deleting '.' and '-' from the CPF form gives back the stripped input |
| AccessKey.ParseChave | bot.py:1465-1472 | a record exactly when the stripped input is 44 digits; the whole decoded record then, and no fields at all otherwise |
| AccessKey.DecodeKey | bot.py:1473-1491 | per field of a valid key: uf_cod, tp_emis, cod_num and dv are verbatim slices; the date is "20"+AA+"-"+MM; the CNPJ unpunctuated is c[6:20]; uf/modelo are table lookups with pass-through; serie and numero_nf are c[22:25] and c[25:34] without leading zeros ("0" when all zeros) |
| AccessKey.YearMonth | bot.py:1474-1477 | `f"{int(AA)+2000:04d}-{int(MM):02d}"` equals "20"+AA+"-"+MM for any two-digit AA and MM; the month is not range checked |
| AccessKey.UfKnown | bot.py:1454-1458 | the decoded state differs from the state code exactly when the code is one of the 27 known ones |
| AccessKey.KeyIsComposed | bot.py:1468 | every valid key is the concatenation of the nine layout fields cUF(2) AAMM(4) CNPJ(14) mod(2) serie(3) nNF(9) tpEmis(1) cNF(8) cDV(1) |
| AccessKey.ComposeDecode | bot.py:1465-1491 | decoding a key laid out from nine digit fields gives each field back, looked up, punctuated or without leading zeros |
| AccessKey.ParseChaveExample | bot.py:1465-1491 | a concrete SP NFC-e key of January 2021 decodes to state "SP", date "2021-01", CNPJ "12.345.678/0001-99", series "1" and number "12345" |
| AccessKey.ZeroPadParse | bot.py:1476-1477 | zero padding `int(s)` to the width of a digit string `s` gives `s` back |
| Text.Strip | bot.py:1470 | `str.strip()`: no white space at either end of the result |
| Text.StripInfix | bot.py:1470 | what `strip` keeps is an infix of the input and all it cuts is white space |
| Text.ParseShowNat | bot.py:1486-1487 | `int(str(n)) == n` |
| Text.ShowParseCanonical | bot.py:1486-1487 | `str(int(s))` is `s` without leading zeros, or "0" when nothing is left |
| Text.JoinSplit | bot.py:1949 | joining the pieces of `s.split(c)` with `c` gives `s` back |
| Text.SplitJoin | bot.py:1949 | splitting a join of pipe-free pieces gives the pieces back |
| Text.Replace | bot.py:1988 | replacing `c` by a string without `c` leaves no `c`; a string without `c` is unchanged; replacing by one character keeps the length, turns every `c` into that character and keeps every other character in place |
| NfePayload.FirstValue | bot.py:1947 | `(qs.get(name) or [""])[0]`: "" for a missing parameter, its first value otherwise |
| NfePayload.OrDefault | bot.py:1952-1953 | the stripped value when non-blank, the default otherwise; the result is a field value (stripped and non-blank, or "—") when the default is |
| NfePayload.PipeField | bot.py:1952-1953 | `_g(i)` always yields a field value |
| NfePayload.FieldsA | bot.py:1948-1964 | Format A: field i is `_g(i)` of the pipe split, i = 0..9, all field values |
| NfePayload.FieldsAParts | bot.py:1948-1964 | for a pipe-join of pieces, field i is piece i stripped, or "—" when that piece is blank or missing |
| NfePayload.Param | bot.py:1967-1969 | `_q(key, default)`: the first value of the parameter stripped, or the default when blank or missing; a field value when the default is |
| NfePayload.FieldsB | bot.py:1966-1979 | Format B: each field is its named parameter (chNFe, tpAmb, cDest, dhEmi, vNF, vICMS, digVal, cIdToken) stripped or "—"; the version is `nVersao` when non-blank, else `versao` or "—"; the QR hash is always "—" |
| NfePayload.SelectFields | bot.py:1947-1979 | Format A, over the first `p` value, exactly when that value contains '\|'; Format B otherwise; all fields are field values |
| NfePayload.FormatTransparency | bot.py:1947-1979 | the same ten values through Format A and through Format B give the same payload except the hash, which only Format A carries |
| NfePayload.FmtDate | bot.py:1985-1993 | a value with 'T' is cut to its first 19 characters with every 'T' a space and every other character in place; a 14-character value YYYYMMDDHHMMSS becomes YYYY-MM-DD HH:MM:SS, with '-', '-', ' ', ':', ':' at positions 4, 7, 10, 13, 16 and the digit pairs between them in order; anything else is unchanged |
| NfePayload.FmtDateIso | bot.py:1987-1988 | an ISO timestamp "YYYY-MM-DDTHH:MM:SS" followed by anything (fraction, offset) becomes "YYYY-MM-DD HH:MM:SS" |
| NfePayload.FmtDateCompact | bot.py:1989-1990 | deleting '-', ' ' and ':' from a formatted 14-digit timestamp gives it back |
| NfePayload.FmtDateYearMonth | bot.py:1985-1993 | a key's "20AA-MM" is left unchanged by `_fmt_date` |
| NfePayload.EmissionDateFallback | bot.py:1996-1997 | when dhEmi is "—", the payload date is the key's "20AA-MM" for a valid key and "—" otherwise; a present dhEmi is formatted |
| NfePayload.FmtDestForms | bot.py:2000-2001 | the recipient is "—" exactly when absent; 11 characters get the CPF form, 14 the CNPJ form; deleting the punctuation gives it back |
| NfePayload.KeyPrecedence | bot.py:2009-2013 | uf, modelo, serie, numero_nf and cnpj_emit come only from the decoded key, and are "—" when the key is invalid |
| NfePayload.FmtDest | bot.py:1999-2001 | "—" stays "—"; an id of 11 stripped characters gets `_fmt_cpf`, any other `_fmt_cnpj` |
| NfePayload.EmissionDate | bot.py:1996-1997 | a present dhEmi is formatted; a missing one is replaced by the key's year-month when the key decodes, and stays "—" otherwise |
| NfePayload.ParseNfeUrl | bot.py:1932-2021 | the base URL is scheme://netloc+path and the full URL is kept; over the fields selected from the query, the key and version pass through, `ambiente` is `_AMB_MAP.get(tpAmb, tpAmb)`, the date is the emission date, the recipient is formatted, the two values go through `_fmt_value`, and digest, token and hash pass through |
| NfePayload.Enrich | bot.py:2003-2021 | the payload keeps the base and full URL; key, version, digest, token and hash pass through; `ambiente` is the `_AMB_MAP` lookup with pass-through; `data_emissao` is the emission date with the key fallback; `cpf_cnpj_dest` is the formatted recipient; both values go through `_fmt_value` |
| QrSearch.Backends.Order | bot.py:1363 | the backends are consulted in the order WeChat, zbar, OpenCV |
| QrSearch.FirstDecode | bot.py:1361-1367 | an empty result is `(None, None)`, and any other result is one of the backends' results |
| QrSearch.TryDecoders | bot.py:1361-1367 | the loop over the backends returns the first backend result with text, or `(None, None)` |
| QrSearch.FirstDecodeIndex | bot.py:1361-1367 | the result is that of the first backend that decodes, every earlier backend decoded nothing, and none decoding gives `(None, None)` |
| QrSearch.SmallAngles | bot.py:1401-1403 | the angles are exactly the non-zero multiples of 5 in [−20, 20], increasing |
| QrSearch.RotationBases | bot.py:1397-1400 | the three bases are the colour image and its grey version at scale 1, then the grey 2x upscale at scale 2 |
| QrSearch.Stage1 | bot.py:1386-1393 | one candidate per variant, in order, keeping its scale and its box |
| QrSearch.Stage2 | bot.py:1395-1413 | 24 candidates: angle n/3 over base n mod 3 (colour 1, grey 1, 2x grey 2), boxes dropped |
| QrSearch.Stage2At | bot.py:1401-1406 | candidate b of angle number j is base b rotated by that angle |
| QrSearch.Stage3 | bot.py:1415-1430 | 6 candidates: each quarter turn of colour then grey, scale 1, boxes dropped |
| QrSearch.FirstHit | bot.py:1386-1433 | a hit always has non-empty text |
| QrSearch.FirstHitIndex | bot.py:1386-1433 | the hit is that of the first candidate that decodes, every earlier candidate decoded nothing, and there is no hit exactly when none decodes |
| QrSearch.FirstHitAppend | bot.py:1396 | a later stage runs only when the earlier stages found nothing |
| QrSearch.MissAt | bot.py:1389-1393 | a failed candidate after failures leaves no hit |
| QrSearch.HitAt | bot.py:1389-1393 | a success after failures decides the search |
| QrSearch.RotationHitsLoseBox | bot.py:1409 | when no variant decodes, a hit carries no box and its crop is the central box |
| QrSearch.SearchVariants | bot.py:1386-1393 | stage 1's loop reports its first hit, or nothing |
| QrSearch.SearchSmallAngles | bot.py:1395-1413 | stage 2's nested loops report its first hit, with the box dropped |
| QrSearch.SearchQuarterTurns | bot.py:1415-1430 | stage 3's nested loops report its first hit, with the box dropped and scale 1 |
| QrSearch.DetectAndCropQr | bot.py:1370-1449 | the whole search equals the specification `Detect`: nothing for undecodable bytes or when every candidate fails; otherwise the first hit's text and its crop |
| QrSearch.CropBox | bot.py:1436-1441 | each side is the box coordinate floor-divided by the scale, moved out by 12, and clamped: x_min = max(b0 div s − 12, 0), y_min likewise, x_max = min(b2 div s + 12, w), y_max likewise |
| QrSearch.CropContains | bot.py:1436-1441 | for a box inside the scaled image, the crop is ordered and contains the detection mapped back |
| QrSearch.CentralBox | bot.py:1442-1445 | the fallback crop is (w div 5, h div 5, 4w div 5, 4h div 5): it lies in the image and is centred to within one pixel |
| QrSearch.Outcome | bot.py:1432-1449 | nothing exactly when there is no hit; otherwise the hit's text, with the crop of the kept box at the hit's scale, or the central box when no box was kept |
| BotHelpers.SplitRuns | bot.py:153 | `re.split(r"[,\n]+", raw)`: at least one piece, none containing ',' or '\n'; only the first and last pieces may be empty; the first piece is the text before the first separator; without a separator the input is the single piece |
| BotHelpers.SplitRunsStep | bot.py:153 | a separator-free piece followed by a maximal run of commas and newlines and then text not starting with one splits into that piece followed by the pieces of the text, so each maximal run is exactly one cut |
| BotHelpers.SplitRunsConcat | bot.py:153 | the pieces laid end to end are the input with its commas and newlines deleted, so splitting loses nothing else |
| BotHelpers.FragmentsNoneOf | bot.py:153-154 | from separator-free pieces every kept fragment is stripped, non-empty, separator-free and not ",", "." or "-" |
| BotHelpers.FragmentsNone | bot.py:153-155 | nothing is kept exactly when every piece is blank or noise once stripped |
| BotHelpers.FragmentsKeep | bot.py:153-154 | pieces already in fragment form are kept as they are |
| BotHelpers.FragmentsAppend | bot.py:153-154 | the fragments of two lists of pieces are those of the first followed by those of the second, so good fragments survive in order |
| BotHelpers.CleanAddress | bot.py:149-155 | nothing for a missing or empty address; for another, nothing exactly when every piece is blank or noise, otherwise the kept fragments joined with ", "; a result is non-empty and has no newline |
| BotHelpers.CleanAddressFixed | bot.py:149-155 | a ", "-join of clean fragments is its own clean-up |
| BotHelpers.CleanAddressIdempotent | bot.py:149-155 | cleaning twice equals cleaning once |
| BotHelpers.HtmlEscape | bot.py:2024-2032 | the default for a missing or empty value; otherwise the one-pass escape of its text |
| BotHelpers.Escape | bot.py:2032 | escaped text contains no '<' and no '>' |
| BotHelpers.EscapeInThreePasses | bot.py:2032 | the three `replace` passes, '&' first, equal a one-pass per-character escape |
| BotHelpers.UnescapeEscape | bot.py:2032 | decoding the three entities undoes the escape |
| BotHelpers.HtmlEscapeRoundTrip | bot.py:2024-2032 | the text shown for an escaped non-empty value is the value |
| BotHelpers.Permissions | bot.py:66-72 | a role outside admin, moderator and user has no permission |
| BotHelpers.GetRole | bot.py:1219-1220 | the role recorded under the decimal user id, "user" when there is none |
| BotHelpers.HasPermission | bot.py:1223-1224 | every permission anyone holds is an admin permission; a user without a recorded role holds exactly the user permissions; a recorded "admin", "moderator" or "user" holds exactly that role's permissions; any other recorded role holds none |
| BotHelpers.PermissionHierarchy | bot.py:66-72 | user permissions are moderator permissions, and moderator permissions are admin permissions |
| BotHelpers.DefaultPermissions | bot.py:1219-1224 | a user without a recorded role has exactly request_myid and help_message; a user with an unknown role has no permission |
| BotHelpers.LastN | bot.py:1184 | the bounded deque's contents: the last min(n, length) elements of the sequence |
| BotHelpers.LastNAppend | bot.py:1186 | keeping the last n after each append keeps the last n of everything appended |
| BotHelpers.MemLog.constructor | bot.py:1182-1184 | an empty buffer of the given capacity |
| BotHelpers.MemLog.Default | bot.py:1182-1184 | `_MemLogHandler()`: an empty buffer of the default capacity 300 |
| BotHelpers.MemLog.Emit | bot.py:1185-1186 | the buffer becomes the last `maxlen` lines of the old buffer plus the new one, so it is always the last `maxlen` lines ever emitted |

## Left out

- Image work is left out; images are an opaque type. This covers `cv2.imdecode`, `_build_variants`, `_rotate_mat` (floating-point trigonometry), `cv2.rotate`, grey conversion and resizing. Each is a function parameter of `QrSearch.Imaging`. The model fixes only the order and the scales of the candidates.
- The decoder backends `_wechat_detect`, `_zbar_decode` and `_cv_detect` are foreign-library calls. They are function parameters returning text ("" for nothing) and an optional box. Python's `None` and `""` both fail the `if d:` test, so both are modelled as "".
- The crop's PNG encoding (`cv2.imencode`) is left out, as are the cropped bytes: the model returns the text and the crop box.
- `urllib.parse.urlparse`/`parse_qs` percent-decoding is left out. `NfePayload.ParseNfeUrl` takes the URL already split into scheme, netloc, path and the `parse_qs` map.
- `_fmt_value` (float money formatting) is a function parameter of `NfePayload.ParseNfeUrl`.
- Python's `str.isdigit` also accepts non-ASCII digits. The model accepts only '0'..'9'. As a result the `except` branch of the year-month in `_parse_chave`, and the case where `int()` rejects a Unicode digit, are not modelled.
- The `try`/`except` of `_fmt_date` cannot fire on a string, so it is not modelled.
- BotHelpers.HtmlEscape: takes `_h`'s `default` argument as an explicit parameter; the Python default value "—" is not built into the model.
- BotHelpers.HtmlEscape: the float branch of `_h` (BRL money formatting) is not modelled. The value is given as its `str()` text.
- The `ROLES` table is a parameter of `BotHelpers.GetRole`. Loading it from JSON and the admin token from the environment are left out.
- BotHelpers.MemLog.Emit: takes the already formatted log line. `logging.Formatter` and the handler's locking are left out.
- Scraping of the tax authority's pages, CSV persistence, report rendering, Telegram handlers and rate limits are outside the decode path.
