/** Text with embedded formulas, as the quiz view shows it (MathText) and
    as the Word export writes it (formatTextForWord). The view cuts the
    text with `split` on a capturing alternation, shortest `$$…$$` first,
    then shortest `$…$`; the Word export rewrites every match of
    `\$\$?([\s\S]+?)\$\$?` and turns line breaks into `<br>`. The formula
    renderer is a parameter that may fail (`None`): the view then shows the
    fragment as it stands and the export keeps the match as it stands. */
module MathText {
  import opened Wrappers
  import opened Text

  // ---- scanning ----

  /** The first position at or after `from` where `d` occurs in `t`. */
  function NextAt(t: string, d: string, from: nat): (r: Option<nat>)
    ensures r.Some? ==> from <= r.value && OccursAt(t, d, r.value)
    ensures r.Some? ==> forall k :: from <= k < r.value ==> !OccursAt(t, d, k)
    ensures r.None? ==> forall k :: from <= k ==> !OccursAt(t, d, k)
    decreases |t| - from
  {
    if from + |d| > |t| then None
    else if OccursAt(t, d, from) then Some(from)
    else NextAt(t, d, from + 1)
  }

  lemma DollarAt(t: string, j: int)
    ensures OccursAt(t, "$", j) <==> 0 <= j < |t| && t[j] == '$'
  {
    if 0 <= j < |t| {
      assert t[j..j + 1] == [t[j]];
    }
  }

  /** The end of the match of `\$\$[\s\S]+?\$\$|\$[\s\S]+?\$` at position
      `q`, if there is one. A match starts and ends with `$` and is at
      least three characters long. */
  function MatchAt(t: string, q: nat): (r: Option<nat>)
    ensures r.Some? ==> q + 3 <= r.value <= |t| && t[q] == '$' && t[r.value - 1] == '$'
  {
    var close2 := NextAt(t, "$$", q + 3);
    var close1 := NextAt(t, "$", q + 2);
    if OccursAt(t, "$$", q) && close2.Some? then
      assert t[close2.value + 1] == t[close2.value..close2.value + 2][1];
      assert t[q] == t[q..q + 2][0];
      Some(close2.value + 2)
    else if OccursAt(t, "$", q) && close1.Some? then
      DollarAt(t, q);
      DollarAt(t, close1.value);
      Some(close1.value + 1)
    else
      None
  }

  /** There is a match at `q` exactly when `q` holds a `$` and some later
      `$` leaves room for a one-character body. */
  lemma MatchAtNone(t: string, q: nat)
    ensures MatchAt(t, q).None? <==> !(q < |t| && t[q] == '$' && exists j :: q + 2 <= j < |t| && t[j] == '$')
  {
    if MatchAt(t, q).Some? {
      assert q + 2 <= MatchAt(t, q).value - 1 < |t|;
    } else if q < |t| && t[q] == '$' {
      DollarAt(t, q);
      assert NextAt(t, "$", q + 2).None?;
      forall j | q + 2 <= j < |t| ensures t[j] != '$' {
        DollarAt(t, j);
      }
    }
  }

  /** An opening `$$` with a closing `$$` somewhere after a non-empty body
      is always read as a block, ending at the first such closing. */
  lemma BlockFirst(t: string, q: nat, j: nat)
    requires OccursAt(t, "$$", q) && q + 3 <= j && OccursAt(t, "$$", j)
    ensures MatchAt(t, q).Some?
    ensures var e := MatchAt(t, q).value;
      q + 5 <= e <= j + 2 && OccursAt(t, "$$", e - 2)
      && forall k :: q + 3 <= k < e - 2 ==> !OccursAt(t, "$$", k)
  {
  }

  /** Without a block, the match is the shortest `$…$`: its body holds no
      `$` after its first character. */
  lemma InlineOtherwise(t: string, q: nat)
    requires MatchAt(t, q).Some?
    requires !OccursAt(t, "$$", q) || forall k :: q + 3 <= k ==> !OccursAt(t, "$$", k)
    ensures var e := MatchAt(t, q).value;
      forall k :: q + 2 <= k < e - 1 ==> t[k] != '$'
  {
    var e := MatchAt(t, q).value;
    forall k | q + 2 <= k < e - 1 ensures t[k] != '$' {
      DollarAt(t, k);
    }
  }

  // ---- splitting ----

  /** What the odd-numbered parts of a split look like. */
  predicate MathShaped(s: string)
  {
    |s| >= 3 && s[0] == '$' && s[|s| - 1] == '$'
  }

  /** No `$` has a second `$` two or more places after it, so no formula
      can begin inside `s`. */
  predicate NoFormula(s: string)
  {
    forall i, j :: 0 <= i && i + 2 <= j < |s| && s[i] == '$' ==> s[j] != '$'
  }

  lemma ScannedNoFormula(t: string, p: nat, q: nat)
    requires p <= q <= |t|
    requires forall k :: p <= k < q ==> MatchAt(t, k).None?
    ensures NoFormula(t[p..q])
  {
    var s := t[p..q];
    forall i, j | 0 <= i && i + 2 <= j < |s| && s[i] == '$' ensures s[j] != '$' {
      assert MatchAt(t, p + i).None?;
      MatchAtNone(t, p + i);
      assert s[i] == t[p + i] && s[j] == t[p + j];
    }
  }

  /** The parts `split` yields from position `p` once positions `p..q`
      have been found not to start a match. Plain text and matches
      alternate, plain text first and last. */
  function SplitFrom(t: string, p: nat, q: nat): (parts: seq<string>)
    requires p <= q <= |t|
    requires forall k :: p <= k < q ==> MatchAt(t, k).None?
    ensures |parts| % 2 == 1
    ensures forall i :: 0 <= i < |parts| && i % 2 == 1 ==> MathShaped(parts[i])
    ensures forall i :: 0 <= i < |parts| && i % 2 == 0 ==> NoFormula(parts[i])
    decreases |t| - q
  {
    if q == |t| then
      ScannedNoFormula(t, p, q);
      assert t[p..q] == t[p..];
      AlternateOne(t[p..]);
      [t[p..]]
    else
      match MatchAt(t, q)
      case None =>
        assert forall k :: p <= k < q + 1 ==> MatchAt(t, k).None?;
        SplitFrom(t, p, q + 1)
      case Some(e) =>
        ScannedNoFormula(t, p, q);
        var rest := SplitFrom(t, e, e);
        AlternatePair(t[p..q], t[q..e], rest);
        [t[p..q], t[q..e]] + rest
  }

  lemma AlternateOne(plain: string)
    requires NoFormula(plain)
    ensures var parts := [plain];
      && |parts| % 2 == 1
      && (forall i :: 0 <= i < |parts| && i % 2 == 1 ==> MathShaped(parts[i]))
      && (forall i :: 0 <= i < |parts| && i % 2 == 0 ==> NoFormula(parts[i]))
  {
  }

  /** Plain text and a match put in front of alternating parts keep them
      alternating. */
  lemma AlternatePair(plain: string, math: string, rest: seq<string>)
    requires NoFormula(plain) && MathShaped(math)
    requires |rest| % 2 == 1
    requires forall i :: 0 <= i < |rest| && i % 2 == 1 ==> MathShaped(rest[i])
    requires forall i :: 0 <= i < |rest| && i % 2 == 0 ==> NoFormula(rest[i])
    ensures var parts := [plain, math] + rest;
      && |parts| % 2 == 1
      && (forall i :: 0 <= i < |parts| && i % 2 == 1 ==> MathShaped(parts[i]))
      && (forall i :: 0 <= i < |parts| && i % 2 == 0 ==> NoFormula(parts[i]))
  {
    var parts := [plain, math] + rest;
    assert forall i :: 2 <= i < |parts| ==> parts[i] == rest[i - 2];
  }

  /** `text.split(/(\$\$[\s\S]+?\$\$|\$[\s\S]+?\$)/g)`, after the view has
      already answered an empty text with no parts. */
  function Split(t: string): seq<string>
  {
    if t == "" then [] else SplitFrom(t, 0, 0)
  }

  lemma ConcatPair(a: string, b: string, rest: seq<string>)
    ensures Concat([a, b] + rest) == a + (b + Concat(rest))
  {
    assert [a, b] + rest == [a] + ([b] + rest);
    ConcatCons(a, [b] + rest);
    ConcatCons(b, rest);
  }

  lemma ConcatSlices(t: string, p: nat, q: nat, e: nat, rest: seq<string>)
    requires p <= q <= e <= |t|
    requires Concat(rest) == t[e..]
    ensures Concat([t[p..q], t[q..e]] + rest) == t[p..]
  {
    ConcatPair(t[p..q], t[q..e], rest);
    assert t[q..] == t[q..e] + t[e..];
    assert t[p..] == t[p..q] + t[q..];
  }

  lemma {:induction false} SplitFromConcat(t: string, p: nat, q: nat)
    requires p <= q <= |t|
    requires forall k :: p <= k < q ==> MatchAt(t, k).None?
    ensures Concat(SplitFrom(t, p, q)) == t[p..]
    decreases |t| - q
  {
    if q == |t| {
      assert Concat([t[p..]]) == Concat([]) + t[p..];
    } else {
      match MatchAt(t, q)
      case None => SplitFromConcat(t, p, q + 1);
      case Some(e) =>
        var rest := SplitFrom(t, e, e);
        assert SplitFrom(t, p, q) == [t[p..q], t[q..e]] + rest;
        SplitFromConcat(t, e, e);
        ConcatSlices(t, p, q, e, rest);
    }
  }

  /** Writing the parts one after another gives back the text. */
  lemma SplitRoundTrip(t: string)
    ensures Concat(Split(t)) == t
  {
    if t != "" {
      SplitFromConcat(t, 0, 0);
    }
  }

  lemma {:induction false} NoMatchFrom(t: string, p: nat, q: nat)
    requires p <= q <= |t|
    requires forall k :: p <= k < |t| ==> MatchAt(t, k).None?
    ensures SplitFrom(t, p, q) == [t[p..]]
    decreases |t| - q
  {
    if q < |t| {
      NoMatchFrom(t, p, q + 1);
    }
  }

  /** A text in which no `$` is closed by a later one (a lone `$`, a `$$`
      without a partner) comes back as a single plain part. */
  lemma UnclosedStaysPlain(t: string)
    requires t != "" && NoFormula(t)
    ensures Split(t) == [t]
  {
    forall k | 0 <= k < |t| ensures MatchAt(t, k).None? {
      MatchAtNone(t, k);
      if t[k] == '$' {
        forall j | k + 2 <= j < |t| ensures t[j] != '$' { }
      }
    }
    NoMatchFrom(t, 0, 0);
  }

  // ---- classifying a part ----

  datatype Kind = Block | Inline | Plain

  predicate StartsWith(s: string, prefix: string)
  {
    |prefix| <= |s| && s[..|prefix|] == prefix
  }

  predicate EndsWith(s: string, suffix: string)
  {
    |suffix| <= |s| && s[|s| - |suffix|..] == suffix
  }

  /** `isBlock` and `isInline` of the view. */
  function KindOf(part: string): Kind
  {
    if StartsWith(part, "$$") && EndsWith(part, "$$") then Block
    else if StartsWith(part, "$") && EndsWith(part, "$") then Inline
    else Plain
  }

  /** `s.slice(n, -n)`: `n` characters off each end, nothing when they
      overlap. */
  function Inner(s: string, n: nat): (r: string)
    ensures |r| == if 2 * n <= |s| then |s| - 2 * n else 0
    ensures 2 * n <= |s| ==> s == s[..n] + r + s[|s| - n..]
  {
    if 2 * n <= |s| then s[n..|s| - n] else ""
  }

  /** The formula handed to the renderer: `slice(2, -2)` for a block,
      `slice(1, -1)` otherwise. */
  function Formula(part: string): string
  {
    if KindOf(part) == Block then Inner(part, 2) else Inner(part, 1)
  }

  /** The formula between its delimiters again. */
  function Delimited(formula: string, kind: Kind): string
  {
    if kind == Block then "$$" + formula + "$$" else "$" + formula + "$"
  }

  /** Putting the delimiters back around the formula gives back the part,
      except for the three parts too short to hold both delimiters. */
  lemma FormulaRoundTrip(part: string)
    requires KindOf(part) != Plain
    ensures Delimited(Formula(part), KindOf(part)) == part || part in {"$", "$$", "$$$"}
  {
    if KindOf(part) == Block && |part| >= 4 {
      assert part[..2] == "$$" && part[|part| - 2..] == "$$";
    } else if KindOf(part) == Inline && |part| >= 2 {
      assert part[..1] == "$" && part[|part| - 1..] == "$";
    } else if KindOf(part) == Block {
      assert part[..2] == "$$" && part[|part| - 2..] == "$$";
      assert part == "$$" || part == "$$$";
    } else {
      assert part[..1] == "$";
    }
  }

  /** Every match of the split is read as a formula. */
  lemma MatchIsFormula(s: string)
    requires MathShaped(s)
    ensures KindOf(s) != Plain
  {
    assert s[..1] == [s[0]];
    assert s[|s| - 1..] == [s[|s| - 1]];
  }

  /** The plain parts of a split are read as text, except a part that is a
      bare `$` or `$$`. */
  lemma PlainPartMisread(s: string)
    requires NoFormula(s) && KindOf(s) != Plain
    ensures s == "$" || s == "$$"
  {
    assert s[0] == s[..1][0];
    assert s[|s| - 1] == s[|s| - 1..][0];
    if |s| >= 3 {
      assert false;
    }
  }

  // ---- what the view shows ----

  datatype Piece = DisplayHtml(html: string) | InlineHtml(html: string) | TextSpan(text: string)

  /** One part in the view: nothing for an empty part, the rendered
      formula when the renderer succeeds, the part itself otherwise. */
  function RenderPart(part: string, render: (string, bool) -> Option<string>): Option<Piece>
  {
    if part == "" then None
    else
      var kind := KindOf(part);
      if kind == Plain then Some(TextSpan(part))
      else
        match render(Formula(part), kind == Block)
        case None => Some(TextSpan(part))
        case Some(html) => Some(if kind == Block then DisplayHtml(html) else InlineHtml(html))
  }

  function Rendered(parts: seq<string>, render: (string, bool) -> Option<string>): seq<Piece>
  {
    if parts == [] then []
    else
      (match RenderPart(parts[0], render) case None => [] case Some(x) => [x])
      + Rendered(parts[1..], render)
  }

  /** The text shown as text, formulas left out. */
  function VisibleText(pieces: seq<Piece>): string
  {
    if pieces == [] then ""
    else (if pieces[0].TextSpan? then pieces[0].text else "") + VisibleText(pieces[1..])
  }

  lemma {:induction false} VisibleTextAppend(a: seq<Piece>, b: seq<Piece>)
    ensures VisibleText(a + b) == VisibleText(a) + VisibleText(b)
  {
    if a == [] {
      assert a + b == b;
    } else {
      VisibleTextAppend(a[1..], b);
      assert (a + b)[1..] == a[1..] + b;
    }
  }

  /** When no formula can be rendered (no renderer loaded, or every call
      fails), the view shows every part as text, in order. */
  lemma {:induction false} FallbackShowsParts(parts: seq<string>, render: (string, bool) -> Option<string>)
    requires forall f, b :: render(f, b).None?
    ensures VisibleText(Rendered(parts, render)) == Concat(parts)
  {
    if parts != [] {
      var head := match RenderPart(parts[0], render) case None => [] case Some(x) => [x];
      FallbackShowsParts(parts[1..], render);
      VisibleTextAppend(head, Rendered(parts[1..], render));
      assert VisibleText(head) == parts[0];
      assert parts == [parts[0]] + parts[1..];
      ConcatCons(parts[0], parts[1..]);
    }
  }

  /** So the view then shows exactly the text it was given. */
  lemma FallbackShowsSource(t: string, render: (string, bool) -> Option<string>)
    requires forall f, b :: render(f, b).None?
    ensures VisibleText(Rendered(Split(t), render)) == t
  {
    FallbackShowsParts(Split(t), render);
    SplitRoundTrip(t);
  }

  // ---- the Word export ----

  /** A match of `\$\$?([\s\S]+?)\$\$?`: the body is `t[open..close]`, the
      match ends at `end`, and `display` says the match starts with `$$`. */
  datatype Hit = Hit(display: bool, open: nat, close: nat, end: nat)

  function HitAt(t: string, q: nat, open: nat, j: nat): Hit
    requires q + 1 < |t| && j < |t|
  {
    Hit(t[q + 1] == '$', open, j, if j + 1 < |t| && t[j + 1] == '$' then j + 2 else j + 1)
  }

  /** The match at position `q`: the optional second `$` of the opening is
      taken if a closing `$` follows a non-empty body, and given back
      otherwise; the optional second `$` of the closing is taken when
      present. */
  function WordMatchAt(t: string, q: nat): (r: Option<Hit>)
    ensures r.Some? ==> var h := r.value;
      q < h.open < h.close < h.end <= |t| && t[q] == '$' && t[h.close] == '$'
      && h.open <= q + 2 && h.end <= h.close + 2
    ensures r.None? <==> !(q < |t| && t[q] == '$' && exists j :: q + 2 <= j < |t| && t[j] == '$')
  {
    if !(q < |t| && t[q] == '$') then None
    else
      var close2 := NextAt(t, "$", q + 3);
      var close1 := NextAt(t, "$", q + 2);
      if q + 1 < |t| && t[q + 1] == '$' && close2.Some? then
        DollarAt(t, close2.value);
        Some(HitAt(t, q, q + 2, close2.value))
      else if close1.Some? then
        DollarAt(t, close1.value);
        Some(HitAt(t, q, q + 1, close1.value))
      else
        assert forall j :: q + 2 <= j < |t| ==> t[j] != '$' by {
          forall j | q + 2 <= j < |t| ensures t[j] != '$' {
            DollarAt(t, j);
          }
        }
        None
  }

  /** What replaces a match: the renderer's MathML inside a centred block
      or a span, or the match itself when rendering fails. */
  function Replacement(t: string, q: nat, h: Hit, mathml: (string, bool) -> Option<string>): string
    requires q <= h.open <= h.close <= h.end <= |t|
  {
    match mathml(Trim(t[h.open..h.close]), h.display)
    case Some(clean) =>
      if h.display then "<div align=\"center\" style=\"margin: 15pt 0;\">" + clean + "</div>"
      else "<span>" + clean + " </span>"
    case None => t[q..h.end]
  }

  function ReplaceFrom(t: string, p: nat, q: nat, mathml: (string, bool) -> Option<string>): string
    requires p <= q <= |t|
    decreases |t| - q
  {
    if q == |t| then t[p..]
    else
      match WordMatchAt(t, q)
      case None => ReplaceFrom(t, p, q + 1, mathml)
      case Some(h) => t[p..q] + Replacement(t, q, h, mathml) + ReplaceFrom(t, h.end, h.end, mathml)
  }

  /** `.replace(/\n/g, '<br>')`. */
  function Breaks(s: string): (r: string)
    ensures forall k :: 0 <= k < |r| ==> r[k] != '\n'
    ensures (forall k :: 0 <= k < |s| ==> s[k] != '\n') ==> r == s
  {
    if s == [] then ""
    else
      var init := s[..|s| - 1];
      assert s == init + [s[|s| - 1]];
      Breaks(init) + (if s[|s| - 1] == '\n' then "<br>" else [s[|s| - 1]])
  }

  /** formatTextForWord. */
  function FormatForWord(t: string, mathml: (string, bool) -> Option<string>): (r: string)
    ensures forall k :: 0 <= k < |r| ==> r[k] != '\n'
  {
    if t == "" then "" else Breaks(ReplaceFrom(t, 0, 0, mathml))
  }

  lemma {:induction false} ReplaceFallback(t: string, p: nat, q: nat, mathml: (string, bool) -> Option<string>)
    requires p <= q <= |t|
    requires forall f, b :: mathml(f, b).None?
    ensures ReplaceFrom(t, p, q, mathml) == t[p..]
    decreases |t| - q
  {
    if q < |t| {
      match WordMatchAt(t, q)
      case None => ReplaceFallback(t, p, q + 1, mathml);
      case Some(h) =>
        ReplaceFallback(t, h.end, h.end, mathml);
        assert t[p..] == t[p..q] + t[q..h.end] + t[h.end..];
    }
  }

  /** When no formula can be rendered, the Word text is the text with its
      line breaks written as `<br>`. */
  lemma WordFallback(t: string, mathml: (string, bool) -> Option<string>)
    requires forall f, b :: mathml(f, b).None?
    ensures FormatForWord(t, mathml) == Breaks(t)
  {
    if t != "" {
      ReplaceFallback(t, 0, 0, mathml);
      assert t[0..] == t;
    }
  }

  /** The Word export and the view agree on where a formula may start: a
      position starts a match for one exactly when it does for the other. */
  lemma SameStarts(t: string, q: nat)
    ensures WordMatchAt(t, q).Some? <==> MatchAt(t, q).Some?
  {
    MatchAtNone(t, q);
  }
}
