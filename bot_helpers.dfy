/** Small helpers of the bot around the decoders: address clean-up, HTML
    escaping for Telegram messages, role-based permissions and the bounded
    in-memory log buffer. */
module BotHelpers {
  import opened Text
  import opened Wrappers

  // ---------------------------------------------------------------------
  // `_clean_address`
  // ---------------------------------------------------------------------

  /** The separators of `re.split(r"[,\n]+", raw)`. */
  const AddressSeps: set<char> := {',', '\n'}

  /** Fragments dropped as noise. */
  const JunkFragments: set<string> := {",", ".", "-"}

  /** The position of the first character of `s` in `seps`, or `|s|`. */
  function IndexOfAny(s: string, seps: set<char>): (i: nat)
    ensures i <= |s|
    ensures i < |s| ==> s[i] in seps
    ensures NoneOf(s[..i], seps)
  {
    if s == [] then 0
    else if s[0] in seps then 0
    else
      var j := IndexOfAny(s[1..], seps);
      assert s[..j + 1] == [s[0]] + s[1..][..j];
      j + 1
  }

  /** The pieces between single occurrences of characters of `seps`. */
  function SplitAny(s: string, seps: set<char>): (parts: seq<string>)
    ensures |parts| >= 1
    ensures forall k :: 0 <= k < |parts| ==> NoneOf(parts[k], seps)
    ensures parts[0] == s[..IndexOfAny(s, seps)]
    decreases |s|
  {
    var i := IndexOfAny(s, seps);
    if i == |s| then (assert s[..i] == s; [s]) else [s[..i]] + SplitAny(s[i + 1..], seps)
  }

  /** The non-empty strings of `ps`, in order. */
  function NonEmpty(ps: seq<string>): (r: seq<string>)
    ensures forall k :: 0 <= k < |r| ==> r[k] != ""
    ensures (forall k :: 0 <= k < |ps| ==> ps[k] != "") ==> r == ps
  {
    if ps == [] then []
    else if ps[0] == "" then NonEmpty(ps[1..])
    else [ps[0]] + NonEmpty(ps[1..])
  }

  /** `re.split` on a run of separators: a run separates once, so empty pieces
      remain only at the two ends. */
  function SplitRuns(s: string, seps: set<char>): (parts: seq<string>)
    ensures |parts| >= 1
    ensures forall k :: 0 <= k < |parts| ==> NoneOf(parts[k], seps)
    ensures forall k :: 0 < k < |parts| - 1 ==> parts[k] != ""
    ensures parts[0] == s[..IndexOfAny(s, seps)]
    ensures parts[|parts| - 1] == SplitAny(s, seps)[|SplitAny(s, seps)| - 1]
    ensures NoneOf(s, seps) ==> parts == [s]
  {
    var ps := SplitAny(s, seps);
    if |ps| == 1 then DropInnerEmpty(ps)
    else NonEmptyNoneOf(ps[1..|ps| - 1], seps); DropInnerEmpty(ps)
  }

  /** Dropping pieces keeps the remaining ones free of separators. */
  lemma {:induction false} NonEmptyNoneOf(ps: seq<string>, seps: set<char>)
    requires forall k :: 0 <= k < |ps| ==> NoneOf(ps[k], seps)
    ensures forall k :: 0 <= k < |NonEmpty(ps)| ==> NoneOf(NonEmpty(ps)[k], seps)
    decreases |ps|
  {
    if ps != [] {
      NonEmptyNoneOf(ps[1..], seps);
    }
  }

  /** The pieces without the empty ones strictly between the first and the last. */
  function DropInnerEmpty(ps: seq<string>): seq<string>
    requires |ps| >= 1
  {
    if |ps| == 1 then ps else [ps[0]] + NonEmpty(ps[1..|ps| - 1]) + [ps[|ps| - 1]]
  }

  /** A fragment that survives `_clean_address`. */
  predicate Fragment(p: string) {
    p != "" && Strip(p) == p && NoneOf(p, AddressSeps) && p !in JunkFragments
  }

  /** Stripping keeps a string free of separators. */
  lemma StripNoneOf(s: string, seps: set<char>)
    requires NoneOf(s, seps)
    ensures NoneOf(Strip(s), seps)
    ensures Strip(Strip(s)) == Strip(s)
  {
    var t := TrimRight(s);
    var r := Strip(s);
    TrimRightCuts(s);
    TrimLeftCuts(t);
    var i := |t| - |r|;
    assert forall k :: 0 <= k < |r| ==> r[k] == s[i + k];
    StripStripped(r);
  }

  /** A piece that is blank or noise once stripped. */
  predicate Noise(p: string) {
    Strip(p) == "" || Strip(p) in JunkFragments
  }

  /** The stripped pieces that are neither empty nor noise, in order. */
  function Fragments(ps: seq<string>): seq<string> {
    if ps == [] then [] else Kept(ps[0]) + Fragments(ps[1..])
  }

  /** What one piece contributes: its strip, unless that is blank or noise. */
  function Kept(p: string): seq<string> {
    if Noise(p) then [] else [Strip(p)]
  }

  /** Pieces free of separators leave fragments free of them. */
  lemma {:induction false} FragmentsNoneOf(ps: seq<string>)
    requires forall k :: 0 <= k < |ps| ==> NoneOf(ps[k], AddressSeps)
    ensures forall k :: 0 <= k < |Fragments(ps)| ==> Fragment(Fragments(ps)[k])
    decreases |ps|
  {
    if ps != [] {
      var h, t := Kept(ps[0]), Fragments(ps[1..]);
      FragmentsNoneOf(ps[1..]);
      StripNoneOf(ps[0], AddressSeps);
      assert forall k :: 0 <= k < |h| ==> Fragment(h[k]);
      assert forall k :: 0 <= k < |h + t| ==> (h + t)[k] == if k < |h| then h[k] else t[k - |h|];
    }
  }

  /** `sep.join(parts)` for a separator string. */
  function JoinWith(parts: seq<string>, sep: string): string
    requires |parts| >= 1
  {
    if |parts| == 1 then parts[0] else parts[0] + sep + JoinWith(parts[1..], sep)
  }

  /** Cleaning a list of pieces is cleaning each piece: the fragments of `a + b`
      are those of `a` followed by those of `b`. */
  lemma {:induction false} FragmentsAppend(a: seq<string>, b: seq<string>)
    ensures Fragments(a + b) == Fragments(a) + Fragments(b)
    decreases |a|
  {
    if a == [] {
      assert a + b == b;
    } else {
      FragmentsAppend(a[1..], b);
      assert (a + b)[0] == a[0] && (a + b)[1..] == a[1..] + b;
      AppendAssoc(Kept(a[0]), Fragments(a[1..]), Fragments(b));
    }
  }

  lemma AppendAssoc<T>(x: seq<T>, y: seq<T>, z: seq<T>)
    ensures x + (y + z) == (x + y) + z
  {
  }

  /** Pieces that are already fragments are kept as they are. */
  lemma {:induction false} FragmentsKeep(ps: seq<string>)
    requires forall k :: 0 <= k < |ps| ==> Fragment(ps[k])
    ensures Fragments(ps) == ps
    decreases |ps|
  {
    if ps != [] {
      FragmentsKeep(ps[1..]);
      assert ps == [ps[0]] + ps[1..];
    }
  }

  /** Nothing is kept exactly when every piece is blank or noise. */
  lemma {:induction false} FragmentsNone(ps: seq<string>)
    ensures Fragments(ps) == [] <==> forall k :: 0 <= k < |ps| ==> Noise(ps[k])
    decreases |ps|
  {
    if ps != [] {
      FragmentsNone(ps[1..]);
      assert forall k :: 1 <= k < |ps| ==> ps[k] == ps[1..][k - 1];
    }
  }

  /** The pieces laid end to end. */
  function Concat(ps: seq<string>): string {
    if ps == [] then [] else ps[0] + Concat(ps[1..])
  }

  lemma {:induction false} ConcatAppend(a: seq<string>, b: seq<string>)
    ensures Concat(a + b) == Concat(a) + Concat(b)
    decreases |a|
  {
    if a == [] {
      assert a + b == b;
    } else {
      assert (a + b)[0] == a[0] && (a + b)[1..] == a[1..] + b;
      ConcatAppend(a[1..], b);
    }
  }

  lemma {:induction false} NonEmptyConcat(ps: seq<string>)
    ensures Concat(NonEmpty(ps)) == Concat(ps)
    decreases |ps|
  {
    if ps != [] {
      NonEmptyConcat(ps[1..]);
      if ps[0] != "" {
        assert ([ps[0]] + NonEmpty(ps[1..]))[1..] == NonEmpty(ps[1..]);
      }
    }
  }

  lemma {:induction false} SplitAnyConcat(s: string, seps: set<char>)
    ensures Concat(SplitAny(s, seps)) == RemoveChars(s, seps)
    decreases |s|
  {
    var i := IndexOfAny(s, seps);
    if i == |s| {
      assert s[..i] == s;
      RemoveCharsNone(s, seps);
      assert Concat([s]) == s + Concat([]);
    } else {
      SplitAnyConcat(s[i + 1..], seps);
      SplitAnyConcatStep(s, i, seps);
    }
  }

  lemma SplitAnyConcatStep(s: string, i: nat, seps: set<char>)
    requires i == IndexOfAny(s, seps) && i < |s|
    requires Concat(SplitAny(s[i + 1..], seps)) == RemoveChars(s[i + 1..], seps)
    ensures Concat(SplitAny(s, seps)) == RemoveChars(s, seps)
  {
    var p, rest := s[..i], s[i + 1..];
    assert SplitAny(s, seps) == [p] + SplitAny(rest, seps);
    RemoveCharsSkip(s, i, seps);
    ConcatCons(p, SplitAny(rest, seps));
  }

  /** Removing the separators from `s` whose first separator is at `i`. */
  lemma RemoveCharsSkip(s: string, i: nat, seps: set<char>)
    requires i < |s| && s[i] in seps && NoneOf(s[..i], seps)
    ensures RemoveChars(s, seps) == s[..i] + RemoveChars(s[i + 1..], seps)
  {
    var p, rest := s[..i], s[i + 1..];
    RemoveCharsNone(p, seps);
    assert s == (p + [s[i]]) + rest;
    RemoveCharsAppend(p + [s[i]], rest, seps);
    RemoveCharsAppend(p, [s[i]], seps);
    assert RemoveChars([s[i]], seps) == [] by { assert [s[i]][1..] == []; }
  }

  lemma ConcatCons(p: string, ps: seq<string>)
    ensures Concat([p] + ps) == p + Concat(ps)
  {
    assert ([p] + ps)[1..] == ps;
  }

  /** Splitting at runs loses the separators and nothing else: the pieces laid end
      to end are the input without its commas and newlines. */
  lemma SplitRunsConcat(s: string, seps: set<char>)
    ensures Concat(SplitRuns(s, seps)) == RemoveChars(s, seps)
  {
    var ps := SplitAny(s, seps);
    SplitAnyConcat(s, seps);
    if |ps| > 1 {
      var mid := ps[1..|ps| - 1];
      assert ps == [ps[0]] + mid + [ps[|ps| - 1]];
      ConcatAppend([ps[0]] + mid, [ps[|ps| - 1]]);
      ConcatAppend([ps[0]], mid);
      ConcatAppend([ps[0]] + NonEmpty(mid), [ps[|ps| - 1]]);
      ConcatAppend([ps[0]], NonEmpty(mid));
      NonEmptyConcat(mid);
    }
  }

  /** A maximal run of separators between a separator-free piece and a text that
      does not start with a separator is one cut: `re.split` yields the piece and
      then the pieces of the text. With `NoneOf(s, seps) ==> SplitRuns(s, seps) == [s]`
      this fixes every piece. */
  lemma SplitRunsStep(p: string, r: string, t: string, seps: set<char>)
    requires NoneOf(p, seps) && |r| >= 1 && forall i :: 0 <= i < |r| ==> r[i] in seps
    requires t == "" || t[0] !in seps
    ensures SplitRuns(p + r + t, seps) == [p] + SplitRuns(t, seps)
  {
    var b := SplitAny(t, seps);
    var e := seq(|r| - 1, _ => "");
    SplitAnyRun(p, r, t, seps);
    if |b| > 1 {
      assert t != "";
      assert IndexOfAny(t, seps) > 0;
    }
    InnerEmptiesDropped(p, e, b);
    assert SplitRuns(p + r + t, seps) == DropInnerEmpty([p] + (e + b));
  }

  /** The single-separator pieces of `p + r + t`: `p`, an empty piece for each
      separator of the run after the first, and the pieces of `t`. */
  lemma SplitAnyRun(p: string, r: string, t: string, seps: set<char>)
    requires NoneOf(p, seps) && |r| >= 1 && forall i :: 0 <= i < |r| ==> r[i] in seps
    ensures SplitAny(p + r + t, seps) == [p] + (seq(|r| - 1, _ => "") + SplitAny(t, seps))
  {
    assert p + r + t == p + [r[0]] + (r[1..] + t);
    SplitAnyCut(p, r[0], r[1..] + t, seps);
    SplitAnyEmpties(r[1..], t, seps);
  }

  /** Cutting at the first separator. */
  lemma SplitAnyCut(p: string, c: char, rest: string, seps: set<char>)
    requires NoneOf(p, seps) && c in seps
    ensures SplitAny(p + [c] + rest, seps) == [p] + SplitAny(rest, seps)
  {
    var s := p + [c] + rest;
    IndexOfAnyAfter(p, c, rest, seps);
    assert s[..|p|] == p && s[|p| + 1..] == rest;
  }

  /** A run of separators in front of `t` splits off one empty piece each. */
  lemma {:induction false} SplitAnyEmpties(r: string, t: string, seps: set<char>)
    requires forall i :: 0 <= i < |r| ==> r[i] in seps
    ensures SplitAny(r + t, seps) == seq(|r|, _ => "") + SplitAny(t, seps)
    decreases |r|
  {
    if r == [] {
      assert r + t == t;
    } else {
      assert r + t == [] + [r[0]] + (r[1..] + t);
      SplitAnyCut([], r[0], r[1..] + t, seps);
      SplitAnyEmpties(r[1..], t, seps);
      assert seq(|r|, _ => "") == [""] + seq(|r| - 1, _ => "");
    }
  }

  /** Dropping the inner empty pieces of `[p] + e + b`, where `e` holds only empty
      pieces and `b` starts with a non-empty one unless it is a single piece. */
  lemma InnerEmptiesDropped(p: string, e: seq<string>, b: seq<string>)
    requires |b| >= 1 && (forall k :: 0 <= k < |e| ==> e[k] == "") && (|b| > 1 ==> b[0] != "")
    ensures DropInnerEmpty([p] + (e + b)) == [p] + DropInnerEmpty(b)
  {
    DropInnerEmptyCons(p, e, b);
    DropInnerEmptyLast(b);
  }

  lemma DropInnerEmptyCons(p: string, e: seq<string>, b: seq<string>)
    requires |b| >= 1 && forall k :: 0 <= k < |e| ==> e[k] == ""
    ensures DropInnerEmpty([p] + (e + b)) == [p] + (NonEmpty(b[..|b| - 1]) + [b[|b| - 1]])
  {
    var a := [p] + (e + b);
    var init := b[..|b| - 1];
    assert a[0] == p && a[|a| - 1] == b[|b| - 1];
    assert a[1..|a| - 1] == e + init;
    NonEmptySkipEmpties(e, init);
  }

  /** Empty pieces in front are dropped. */
  lemma {:induction false} NonEmptySkipEmpties(e: seq<string>, x: seq<string>)
    requires forall k :: 0 <= k < |e| ==> e[k] == ""
    ensures NonEmpty(e + x) == NonEmpty(x)
    decreases |e|
  {
    if e == [] {
      assert e + x == x;
    } else {
      assert (e + x)[0] == "" && (e + x)[1..] == e[1..] + x;
      NonEmptySkipEmpties(e[1..], x);
    }
  }

  /** A list whose first piece is non-empty unless it is alone keeps its first piece. */
  lemma DropInnerEmptyLast(b: seq<string>)
    requires |b| >= 1 && (|b| > 1 ==> b[0] != "")
    ensures DropInnerEmpty(b) == NonEmpty(b[..|b| - 1]) + [b[|b| - 1]]
  {
    var init := b[..|b| - 1];
    if |b| > 1 {
      assert init[0] == b[0] && init[1..] == b[1..|b| - 1];
    } else {
      assert init == [];
    }
  }

  /** `_clean_address`: nothing for a missing or empty address; otherwise the
      fragments between runs of commas and newlines, stripped, without empty and
      noise fragments, joined with ", " (nothing when none is left). */
  function CleanAddress(raw: Option<string>): (r: Option<string>)
    ensures raw.None? || raw == Some("") ==> r.None?
    ensures raw.Some? && raw.value != "" ==>
      var ps := SplitRuns(raw.value, AddressSeps);
      (r.None? <==> forall k :: 0 <= k < |ps| ==> Noise(ps[k]))
    ensures r.Some? ==> var parts := Fragments(SplitRuns(raw.value, AddressSeps));
      parts != [] && r.value == JoinWith(parts, ", ")
    ensures r.Some? ==> r.value != "" && '\n' !in r.value
  {
    if raw.None? || raw.value == "" then None
    else
      var parts := Fragments(SplitRuns(raw.value, AddressSeps));
      FragmentsNone(SplitRuns(raw.value, AddressSeps));
      if parts == [] then None
      else
        FragmentsNoneOf(SplitRuns(raw.value, AddressSeps));
        FragmentsJoin(parts);
        Some(JoinWith(parts, ", "))
  }

  /** `JoinWith(ps, ", ")` is `','.join` of the fragments after the first, each
      preceded by a space. */
  function Spaced(ps: seq<string>): (qs: seq<string>)
    requires |ps| >= 1
    ensures |qs| == |ps| && qs[0] == ps[0]
    ensures forall k :: 1 <= k < |ps| ==> qs[k] == " " + ps[k]
  {
    [ps[0]] + seq(|ps| - 1, k requires 0 <= k < |ps| - 1 => " " + ps[k + 1])
  }

  lemma {:induction false} JoinWithSpaced(ps: seq<string>)
    requires |ps| >= 1
    ensures JoinWith(ps, ", ") == Join(Spaced(ps), ',')
    decreases |ps|
  {
    if |ps| > 1 {
      JoinWithSpaced(ps[1..]);
      var qs := Spaced(ps);
      var rest := Spaced(ps[1..]);
      assert qs[1..] == [" " + rest[0]] + rest[1..];
      assert Join(qs[1..], ',') == " " + Join(rest, ',') by {
        if |rest| > 1 {
          assert [" " + rest[0]] + rest[1..] == [" " + rest[0]] + rest[1..];
          assert Join(qs[1..], ',') == " " + rest[0] + [','] + Join(rest[1..], ',');
          assert Join(rest, ',') == rest[0] + [','] + Join(rest[1..], ',');
        }
      }
    }
  }

  /** A joined address has no newline. */
  lemma FragmentsJoin(ps: seq<string>)
    requires |ps| >= 1 && forall k :: 0 <= k < |ps| ==> Fragment(ps[k])
    ensures JoinWith(ps, ", ") != "" && '\n' !in JoinWith(ps, ", ")
  {
    JoinWithSpaced(ps);
    var qs := Spaced(ps);
    SpacedPieces(ps);
    forall k | 0 <= k < |qs|
      ensures '\n' !in qs[k]
    {
      assert NoneOf(qs[k], AddressSeps);
    }
    SpacedJoinNoNewline(qs);
  }

  lemma {:induction false} SpacedJoinNoNewline(qs: seq<string>)
    requires |qs| >= 1 && qs[0] != "" && forall k :: 0 <= k < |qs| ==> '\n' !in qs[k]
    ensures Join(qs, ',') != "" && '\n' !in Join(qs, ',')
    decreases |qs|
  {
    if |qs| > 1 {
      if qs[1] == "" {
        assert Join(qs, ',') == qs[0] + [','] + Join(qs[1..], ',');
        assert '\n' !in Join(qs[1..], ',') by {
          NoNewlineJoin(qs[1..]);
        }
      } else {
        SpacedJoinNoNewline(qs[1..]);
      }
    }
  }

  lemma {:induction false} NoNewlineJoin(qs: seq<string>)
    requires |qs| >= 1 && forall k :: 0 <= k < |qs| ==> '\n' !in qs[k]
    ensures '\n' !in Join(qs, ',')
    decreases |qs|
  {
    if |qs| > 1 {
      NoNewlineJoin(qs[1..]);
    }
  }

  /** The first separator of `p + [c] + rest` is the `c`. */
  lemma {:induction false} IndexOfAnyAfter(p: string, c: char, rest: string, seps: set<char>)
    requires NoneOf(p, seps) && c in seps
    ensures IndexOfAny(p + [c] + rest, seps) == |p|
    decreases |p|
  {
    var s := p + [c] + rest;
    if p != [] {
      assert s[0] == p[0] && s[1..] == p[1..] + [c] + rest;
      IndexOfAnyAfter(p[1..], c, rest, seps);
    }
  }

  /** Splitting a `c`-join of separator-free pieces gives the pieces back. */
  lemma {:induction false} SplitAnyJoin(parts: seq<string>, c: char, seps: set<char>)
    requires |parts| >= 1 && c in seps
    requires forall k :: 0 <= k < |parts| ==> NoneOf(parts[k], seps)
    ensures SplitAny(Join(parts, c), seps) == parts
    decreases |parts|
  {
    var s := Join(parts, c);
    var p := parts[0];
    if |parts| == 1 {
      assert IndexOfAny(s, seps) == |s|;
    } else {
      var rest := Join(parts[1..], c);
      assert s == p + [c] + rest;
      IndexOfAnyAfter(p, c, rest, seps);
      assert s[..|p|] == p && s[|p| + 1..] == rest;
      SplitAnyJoin(parts[1..], c, seps);
    }
  }

  /** The spaced pieces of a cleaned address are non-empty and separator-free. */
  lemma SpacedPieces(ps: seq<string>)
    requires |ps| >= 1 && forall k :: 0 <= k < |ps| ==> Fragment(ps[k])
    ensures forall k :: 0 <= k < |ps| ==> NoneOf(Spaced(ps)[k], AddressSeps) && Spaced(ps)[k] != ""
  {
    var qs := Spaced(ps);
    forall k | 0 <= k < |qs|
      ensures NoneOf(qs[k], AddressSeps) && qs[k] != ""
    {
      if k > 0 {
        assert qs[k] == " " + ps[k];
      }
    }
  }

  /** Without empty pieces, splitting at runs is splitting at single separators. */
  lemma SplitRunsNoEmpty(s: string, seps: set<char>)
    requires forall k :: 0 <= k < |SplitAny(s, seps)| ==> SplitAny(s, seps)[k] != ""
    ensures SplitRuns(s, seps) == SplitAny(s, seps)
  {
    var ps := SplitAny(s, seps);
    if |ps| > 1 {
      assert ps == [ps[0]] + ps[1..|ps| - 1] + [ps[|ps| - 1]];
    }
  }

  /** Splitting a cleaned address at runs of separators gives the spaced pieces. */
  lemma SplitRunsSpaced(ps: seq<string>)
    requires |ps| >= 1 && forall k :: 0 <= k < |ps| ==> Fragment(ps[k])
    ensures forall k :: 0 <= k < |ps| ==> NoneOf(Spaced(ps)[k], AddressSeps)
    ensures SplitRuns(JoinWith(ps, ", "), AddressSeps) == Spaced(ps)
  {
    JoinWithSpaced(ps);
    SpacedPieces(ps);
    SplitAnyJoin(Spaced(ps), ',', AddressSeps);
    SplitRunsNoEmpty(JoinWith(ps, ", "), AddressSeps);
  }

  /** A cleaned address is left unchanged by cleaning: its fragments come back. */
  lemma CleanAddressFixed(ps: seq<string>)
    requires |ps| >= 1 && forall k :: 0 <= k < |ps| ==> Fragment(ps[k])
    ensures CleanAddress(Some(JoinWith(ps, ", "))) == Some(JoinWith(ps, ", "))
  {
    FragmentsJoin(ps);
    SplitRunsSpaced(ps);
    FragmentsSpaced(ps);
  }

  /** Stripping the spaced pieces gives the fragments back. */
  lemma FragmentsSpaced(ps: seq<string>)
    requires |ps| >= 1 && forall k :: 0 <= k < |ps| ==> Fragment(ps[k])
    ensures Fragments(Spaced(ps)) == ps
  {
    var qs := Spaced(ps);
    forall k | 0 <= k < |ps|
      ensures Strip(qs[k]) == ps[k]
    {
      if k > 0 {
        StripSpaceBefore(ps[k]);
      }
    }
    StripsToFragments(qs, ps);
  }

  lemma {:induction false} StripsToFragments(qs: seq<string>, ps: seq<string>)
    requires |qs| == |ps| && forall k :: 0 <= k < |ps| ==> Fragment(ps[k])
    requires forall k :: 0 <= k < |qs| ==> Strip(qs[k]) == ps[k]
    ensures Fragments(qs) == ps
    decreases |qs|
  {
    if qs != [] {
      StripsToFragments(qs[1..], ps[1..]);
      assert ps == [ps[0]] + ps[1..];
    }
  }

  /** Cleaning an address twice is cleaning it once. */
  lemma CleanAddressIdempotent(raw: Option<string>)
    ensures CleanAddress(CleanAddress(raw)) == CleanAddress(raw)
  {
    if raw.Some? && raw.value != "" {
      var parts := Fragments(SplitRuns(raw.value, AddressSeps));
      if parts != [] {
        FragmentsNoneOf(SplitRuns(raw.value, AddressSeps));
        CleanAddressFixed(parts);
      }
    }
  }

  // ---------------------------------------------------------------------
  // `_h`
  // ---------------------------------------------------------------------

  /** The escape of one character. */
  function EscapeChar(c: char): string {
    if c == '&' then "&amp;" else if c == '<' then "&lt;" else if c == '>' then "&gt;" else [c]
  }

  /** Escaping in one pass, character by character. */
  function Escape(s: string): (r: string)
    ensures '<' !in r && '>' !in r
  {
    if s == [] then [] else EscapeChar(s[0]) + Escape(s[1..])
  }

  /** `_h(v, default)`: the default for a missing or empty value; otherwise the
      value's text with `&`, `<` and `>` replaced by entities, `&` first. */
  function HtmlEscape(v: Option<string>, default: string): (r: string)
    ensures v.None? || v == Some("") ==> r == default
    ensures v.Some? && v.value != "" ==> r == Escape(v.value)
  {
    if v.None? || v.value == "" then default
    else
      var s := v.value;
      EscapeInThreePasses(s);
      Replace(Replace(Replace(s, '&', "&amp;"), '<', "&lt;"), '>', "&gt;")
  }

  lemma {:induction false} ReplaceAppend(a: string, b: string, c: char, rep: string)
    ensures Replace(a + b, c, rep) == Replace(a, c, rep) + Replace(b, c, rep)
    decreases |a|
  {
    if a == [] {
      assert a + b == b;
    } else {
      assert (a + b)[0] == a[0] && (a + b)[1..] == a[1..] + b;
      ReplaceAppend(a[1..], b, c, rep);
    }
  }

  /** The three `str.replace` passes, `&` first, escape each character once:
      the `&` of an entity written by a later pass is never escaped again. */
  lemma {:induction false} EscapeInThreePasses(s: string)
    ensures Replace(Replace(Replace(s, '&', "&amp;"), '<', "&lt;"), '>', "&gt;") == Escape(s)
    decreases |s|
  {
    if s != [] {
      var c := s[0];
      var a1 := Replace([c], '&', "&amp;");
      var b1 := Replace(s[1..], '&', "&amp;");
      assert s == [c] + s[1..];
      ReplaceAppend([c], s[1..], '&', "&amp;");
      var a2 := Replace(a1, '<', "&lt;");
      ReplaceAppend(a1, b1, '<', "&lt;");
      var b2 := Replace(b1, '<', "&lt;");
      ReplaceAppend(a2, b2, '>', "&gt;");
      EscapeInThreePasses(s[1..]);
      EscapeOneChar(c);
    }
  }

  lemma EscapeOneChar(c: char)
    ensures Replace(Replace(Replace([c], '&', "&amp;"), '<', "&lt;"), '>', "&gt;") == EscapeChar(c)
  {
    var a1 := Replace([c], '&', "&amp;");
    ReplaceSingle(c, '&', "&amp;");
    if c == '&' {
      assert a1 == "&amp;";
      ReplaceNone("&amp;", '<', "&lt;");
      ReplaceNone("&amp;", '>', "&gt;");
    } else if c == '<' {
      assert a1 == "<";
      ReplaceSingle(c, '<', "&lt;");
      ReplaceNone("&lt;", '>', "&gt;");
    } else {
      assert a1 == [c];
      ReplaceSingle(c, '<', "&lt;");
      ReplaceSingle(c, '>', "&gt;");
    }
  }

  lemma ReplaceSingle(c: char, x: char, rep: string)
    ensures Replace([c], x, rep) == if c == x then rep else [c]
  {
    assert [c][1..] == [];
  }

  lemma {:induction false} ReplaceNone(s: string, c: char, rep: string)
    requires c !in s
    ensures Replace(s, c, rep) == s
    decreases |s|
  {
    if s != [] {
      ReplaceNone(s[1..], c, rep);
    }
  }

  /** Decoding the three entities. */
  function Unescape(s: string): string {
    if |s| >= 5 && s[..5] == "&amp;" then "&" + Unescape(s[5..])
    else if |s| >= 4 && s[..4] == "&lt;" then "<" + Unescape(s[4..])
    else if |s| >= 4 && s[..4] == "&gt;" then ">" + Unescape(s[4..])
    else if s == [] then []
    else [s[0]] + Unescape(s[1..])
  }

  /** Unescaping an escaped text gives the text back. */
  lemma {:induction false} UnescapeEscape(s: string)
    ensures Unescape(Escape(s)) == s
    decreases |s|
  {
    if s != [] {
      var c := s[0];
      var rest := Escape(s[1..]);
      var e := EscapeChar(c) + rest;
      assert Escape(s) == e;
      UnescapeEscape(s[1..]);
      if c == '&' {
        assert e[..5] == "&amp;" && e[5..] == rest;
      } else if c == '<' {
        assert e[..4] == "&lt;" && e[4..] == rest;
        assert e[1] == 'l';
      } else if c == '>' {
        assert e[..4] == "&gt;" && e[4..] == rest;
        assert e[1] == 'g';
      } else {
        assert e[0] == c && e[1..] == rest;
        assert |e| >= 4 ==> e[..4][0] == c;
        assert |e| >= 5 ==> e[..5][0] == c;
      }
    }
  }

  /** Telegram shows the original text of an escaped value. */
  lemma HtmlEscapeRoundTrip(v: string, default: string)
    requires v != ""
    ensures Unescape(HtmlEscape(Some(v), default)) == v
  {
    UnescapeEscape(v);
  }

  // ---------------------------------------------------------------------
  // `get_role` / `has_permission`
  // ---------------------------------------------------------------------

  const UserPermissions: seq<string> := ["request_myid", "help_message"]

  const ModeratorPermissions: seq<string> :=
    ["request_resume", "send_nf", "request_myid", "help_message"]

  const AdminPermissions: seq<string> :=
    ["add_user_role", "remove_user_role", "view_logs", "request_resume",
     "see_users_sending_messages", "request_myid", "send_nf", "help_message"]

  /** `ROLE_PERMISSIONS.get(role, [])`. */
  function Permissions(role: string): (ps: seq<string>)
    ensures role != "admin" && role != "moderator" && role != "user" ==> ps == []
  {
    if role == "admin" then AdminPermissions
    else if role == "moderator" then ModeratorPermissions
    else if role == "user" then UserPermissions
    else []
  }

  /** `get_role`: the role recorded for the decimal user id, "user" by default.
      `roles` is the in-memory `ROLES` table. */
  function GetRole(roles: map<string, string>, userId: int): (role: string)
    ensures ShowInt(userId) !in roles ==> role == "user"
    ensures ShowInt(userId) in roles ==> role == roles[ShowInt(userId)]
  {
    var key := ShowInt(userId);
    if key in roles then roles[key] else "user"
  }

  /** `has_permission`: whether the user's role grants the permission. Every
      permission anyone holds is an administrator's; a user without a recorded
      role holds exactly the user permissions. */
  function HasPermission(roles: map<string, string>, userId: int, permission: string): (b: bool)
    ensures b ==> permission in AdminPermissions
    ensures ShowInt(userId) !in roles ==> (b <==> permission in UserPermissions)
    ensures GetRole(roles, userId) == "admin" ==> (b <==> permission in AdminPermissions)
    ensures GetRole(roles, userId) == "moderator" ==> (b <==> permission in ModeratorPermissions)
    ensures GetRole(roles, userId) == "user" ==> (b <==> permission in UserPermissions)
    ensures GetRole(roles, userId) !in {"admin", "moderator", "user"} ==> !b
  {
    PermissionHierarchy(permission);
    permission in Permissions(GetRole(roles, userId))
  }

  /** Each role has every permission of the role below it:
      user, then moderator, then admin. */
  lemma PermissionHierarchy(p: string)
    ensures p in Permissions("user") ==> p in Permissions("moderator")
    ensures p in Permissions("moderator") ==> p in Permissions("admin")
  {
    if p in UserPermissions {
      assert p == UserPermissions[0] || p == UserPermissions[1];
    }
    if p in ModeratorPermissions {
      assert p == ModeratorPermissions[0] || p == ModeratorPermissions[1] ||
             p == ModeratorPermissions[2] || p == ModeratorPermissions[3];
    }
  }

  /** A user without a recorded role may only ask for their id and for help; a
      user whose recorded role is unknown may do nothing. */
  lemma DefaultPermissions(roles: map<string, string>, userId: int, p: string)
    ensures ShowInt(userId) !in roles ==>
      (HasPermission(roles, userId, p) <==> p == "request_myid" || p == "help_message")
    ensures GetRole(roles, userId) !in {"admin", "moderator", "user"} ==>
      !HasPermission(roles, userId, p)
  {
  }

  // ---------------------------------------------------------------------
  // `_MemLogHandler`
  // ---------------------------------------------------------------------

  /** The capacity `_MemLogHandler` gets when none is given. */
  const DefaultMaxLen: nat := 300

  /** The last `n` elements of `s` (all of them when there are fewer). */
  function LastN<T>(s: seq<T>, n: nat): (r: seq<T>)
    ensures |r| == if |s| < n then |s| else n
    ensures r == s[|s| - |r|..]
  {
    if |s| <= n then s else s[|s| - n..]
  }

  /** Keeping the last `n` after each append keeps the last `n` of everything. */
  lemma LastNAppend<T>(s: seq<T>, x: T, n: nat)
    ensures LastN(LastN(s, n) + [x], n) == LastN(s + [x], n)
  {
    var t := s + [x];
    var l := LastN(s, n);
    var r := LastN(l + [x], n);
    assert (l + [x]) == t[|t| - |l| - 1..];
    assert r == t[|t| - |r|..];
  }

  /** `_MemLogHandler`: a `deque(maxlen=maxlen)` of formatted log lines. */
  class MemLog {
    var buf: seq<string>
    const maxlen: nat
    /** Every line emitted so far. */
    ghost var history: seq<string>

    /** The buffer holds the last `maxlen` lines emitted. */
    ghost predicate Valid()
      reads this
    {
      buf == LastN(history, maxlen)
    }

    constructor (maxlen: nat)
      ensures Valid() && this.maxlen == maxlen && buf == [] && history == []
    {
      this.maxlen := maxlen;
      buf := [];
      history := [];
    }

    /** `_MemLogHandler()`: the default capacity of 300 lines. */
    constructor Default()
      ensures Valid() && maxlen == DefaultMaxLen && buf == [] && history == []
    {
      maxlen := DefaultMaxLen;
      buf := [];
      history := [];
    }

    /** `emit`: append the formatted line, dropping the oldest when full. */
    method Emit(line: string)
      requires Valid()
      modifies this
      ensures Valid() && history == old(history) + [line]
      ensures buf == LastN(old(buf) + [line], maxlen)
      ensures |buf| <= maxlen
    {
      LastNAppend(history, line, maxlen);
      buf := buf + [line];
      if |buf| > maxlen {
        buf := buf[1..];
      }
      history := history + [line];
    }
  }
}
