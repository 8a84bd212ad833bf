/** The transcript clean-up helpers shared by the avatar page, the session
    context and the speech-recognition hook: `normalizeText` and
    `removeConsecutiveDuplicates`. */
module Normalize {
  import opened Text

  // ------------------------------------------------------------ normalizeText

  /** The class `[.,!?،؛:؛؟]` that `normalizeText` deletes. */
  predicate IsPunct(c: char) {
    || c == '.' || c == ',' || c == '!' || c == '?' || c == ':'
    || c == '\U{060C}' || c == '\U{061B}' || c == '\U{061F}'
  }

  /** The non-whitespace characters of `s`, in order. */
  function Squeeze(s: string): string {
    if |s| == 0 then [] else (if IsSpace(s[0]) then [] else [s[0]]) + Squeeze(s[1..])
  }

  lemma {:induction false} SqueezeSpaces(s: string)
    requires AllSpaces(s)
    ensures Squeeze(s) == []
  {
    if |s| > 0 {
      SqueezeSpaces(s[1..]);
    }
  }

  lemma {:induction false} SqueezeAppend(a: string, b: string)
    ensures Squeeze(a + b) == Squeeze(a) + Squeeze(b)
  {
    if |a| > 0 {
      assert (a + b)[1..] == a[1..] + b;
      SqueezeAppend(a[1..], b);
    } else {
      assert a + b == b;
    }
  }

  /** No two neighbouring characters are both whitespace. */
  predicate NoDoubleSpace(s: string) {
    forall i :: 0 <= i < |s| - 1 ==> !(IsSpace(s[i]) && IsSpace(s[i + 1]))
  }

  /** Every whitespace character is a plain space. */
  predicate OnlyPlainSpaces(s: string) {
    forall i :: 0 <= i < |s| && IsSpace(s[i]) ==> s[i] == ' '
  }

  /** `replace(/[\s\n\r]+/g, " ")`: each maximal whitespace run becomes one
      plain space; every other character is kept, in order. */
  function CollapseSpaces(s: string): (r: string)
    ensures Squeeze(r) == Squeeze(s)
    ensures NoDoubleSpace(r) && OnlyPlainSpaces(r)
    ensures |r| == 0 <==> |s| == 0
    ensures |r| > 0 ==> (IsSpace(r[0]) <==> IsSpace(s[0]))
    decreases |s|
  {
    if |s| == 0 then []
    else if IsSpace(s[0]) then
      var rest := TrimStart(s);
      assert |rest| < |s|;
      TrimStartDrops(s);
      SqueezeSpaces(s[..|s| - |rest|]);
      SqueezeAppend(s[..|s| - |rest|], rest);
      assert s == s[..|s| - |rest|] + rest;
      [' '] + CollapseSpaces(rest)
    else
      assert s == [s[0]] + s[1..];
      [s[0]] + CollapseSpaces(s[1..])
  }

  /** `replace(/[.,!?،؛:؛؟]/g, "")`. */
  function RemovePunct(s: string): (r: string)
    ensures NoPunct(r)
    ensures OnlyPlainSpaces(s) ==> OnlyPlainSpaces(r)
    ensures NoPunct(s) ==> r == s
  {
    if |s| == 0 then []
    else (if IsPunct(s[0]) then [] else [s[0]]) + RemovePunct(s[1..])
  }

  /** A string `normalizeText` leaves unchanged. */
  predicate IsNormal(s: string) {
    && IsTrimmed(s) && NoDoubleSpace(s) && OnlyPlainSpaces(s)
    && NoPunct(s) && NoUpper(s)
  }

  /** `normalizeText`: collapse whitespace runs, delete punctuation, trim,
      lower-case. The result is punctuation-free, trimmed, has no upper-case
      ASCII letter, and its only whitespace is the plain space. */
  function NormalizeText(s: string): (r: string)
    ensures NoPunct(r) && IsTrimmed(r) && OnlyPlainSpaces(r)
    ensures NoUpper(r)
  {
    var bare := RemovePunct(CollapseSpaces(s));
    TrimKeeps(bare);
    LowerKeeps(Trim(bare));
    ToLower(Trim(bare))
  }

  predicate NoPunct(s: string) {
    forall i :: 0 <= i < |s| ==> !IsPunct(s[i])
  }

  lemma TrimKeeps(s: string)
    requires OnlyPlainSpaces(s) && NoPunct(s)
    ensures OnlyPlainSpaces(Trim(s)) && NoPunct(Trim(s))
  {
    TrimCharacterization(s);
    var i, j :| Slice(s, i, j) && s[i..j] == Trim(s);
    SliceKeeps(s, i, j);
  }

  lemma SliceKeeps(s: string, i: int, j: int)
    requires Slice(s, i, j) && OnlyPlainSpaces(s) && NoPunct(s)
    ensures OnlyPlainSpaces(s[i..j]) && NoPunct(s[i..j])
  {
    assert forall k :: 0 <= k < j - i ==> s[i..j][k] == s[i + k];
  }

  lemma LowerKeeps(t: string)
    requires IsTrimmed(t) && OnlyPlainSpaces(t) && NoPunct(t)
    ensures IsTrimmed(ToLower(t)) && OnlyPlainSpaces(ToLower(t)) && NoPunct(ToLower(t))
    ensures NoUpper(ToLower(t))
  {
  }

  lemma {:induction false} CollapseKeepsNormal(s: string)
    requires NoDoubleSpace(s) && OnlyPlainSpaces(s)
    ensures CollapseSpaces(s) == s
    decreases |s|
  {
    if |s| > 0 {
      if IsSpace(s[0]) {
        assert |s| == 1 || !IsSpace(s[1]);
        assert TrimStart(s) == s[1..] by {
          assert TrimStart(s) == TrimStart(s[1..]);
        }
      }
      CollapseKeepsNormal(s[1..]);
    }
  }

  /** Normal text is a fixed point of `normalizeText`. */
  lemma NormalizeFixesNormal(s: string)
    requires IsNormal(s)
    ensures NormalizeText(s) == s
  {
    CollapseKeepsNormal(s);
    TrimCharacterization(s);
    LowerFixes(s);
  }

  // ------------------------------------------------ what normalizeText keeps

  /** The punctuation filter works character by character: on a
      concatenation it filters each part, and a single character survives
      iff it is not punctuation (`RemovePunctCons`). */
  lemma {:induction false} RemovePunctAppend(a: string, b: string)
    ensures RemovePunct(a + b) == RemovePunct(a) + RemovePunct(b)
    decreases |a|
  {
    if |a| == 0 {
      assert a + b == b;
    } else {
      var x, t := a[0], a[1..];
      assert a == [x] + t;
      assert a + b == [x] + (t + b);
      RemovePunctCons(x, t + b);
      RemovePunctCons(x, t);
      RemovePunctAppend(t, b);
      ConcatAssoc(if IsPunct(x) then [] else [x], RemovePunct(t), RemovePunct(b));
    }
  }

  lemma ConcatAssoc(k: string, u: string, v: string)
    ensures (k + u) + v == k + (u + v)
  {
  }

  /** A whitespace run ahead of a word (or of the end) is what `TrimStart`
      skips. */
  lemma {:induction false} TrimStartRun(w: string, s: string)
    requires AllSpaces(w) && (s == [] || !IsSpace(s[0]))
    ensures TrimStart(w + s) == s
    decreases |w|
  {
    if |w| == 0 {
      assert w + s == s;
    } else {
      assert (w + s)[1..] == w[1..] + s;
      TrimStartRun(w[1..], s);
    }
  }

  /** The whitespace rule of the collapse: a maximal run, however long and of
      whatever whitespace, becomes exactly one plain space. With `CollapseCons`
      for word characters this pins down `CollapseSpaces` on every input. */
  lemma CollapseRunRule(w: string, s: string)
    requires |w| > 0 && AllSpaces(w) && (s == [] || !IsSpace(s[0]))
    ensures CollapseSpaces(w + s) == [' '] + CollapseSpaces(s)
  {
    assert (w + s)[0] == w[0];
    TrimStartRun(w, s);
  }

  /** Lower-casing maps no character to or from whitespace. */
  lemma {:induction false} SqueezeLower(t: string)
    ensures Squeeze(ToLower(t)) == ToLower(Squeeze(t))
    decreases |t|
  {
    if |t| > 0 {
      var l := ToLower(t);
      assert l[1..] == ToLower(t[1..]);
      assert IsSpace(l[0]) <==> IsSpace(t[0]);
      SqueezeLower(t[1..]);
      var rest := Squeeze(t[1..]);
      assert ToLower((if IsSpace(t[0]) then [] else [t[0]]) + rest)
          == (if IsSpace(t[0]) then [] else [l[0]]) + ToLower(rest);
    }
  }

  /** Trimming removes only whitespace, so it keeps every other character. */
  lemma SqueezeTrim(t: string)
    ensures Squeeze(Trim(t)) == Squeeze(t)
  {
    SqueezeTrimStart(t);
    SqueezeTrimEnd(TrimStart(t));
  }

  lemma SqueezeTrimStart(t: string)
    ensures Squeeze(TrimStart(t)) == Squeeze(t)
  {
    var u := TrimStart(t);
    var n := |t| - |u|;
    TrimStartDrops(t);
    assert t == t[..n] + u;
    SqueezeAppend(t[..n], u);
    SqueezeSpaces(t[..n]);
  }

  lemma SqueezeTrimEnd(t: string)
    ensures Squeeze(TrimEnd(t)) == Squeeze(t)
  {
    var u := TrimEnd(t);
    TrimEndDrops(t);
    assert t == u + t[|u|..];
    SqueezeAppend(u, t[|u|..]);
    SqueezeSpaces(t[|u|..]);
  }

  /** Punctuation is not whitespace: deleting it commutes with squeezing. */
  lemma {:induction false} SqueezePunct(t: string)
    ensures Squeeze(RemovePunct(t)) == RemovePunct(Squeeze(t))
    decreases |t|
  {
    if |t| > 0 {
      var c, rest := t[0], t[1..];
      SqueezePunct(rest);
      assert t == [c] + rest;
      RemovePunctCons(c, rest);
      assert Squeeze(t) == (if IsSpace(c) then [] else [c]) + Squeeze(rest);
      if IsPunct(c) {
        assert RemovePunct(t) == RemovePunct(rest);
        RemovePunctCons(c, Squeeze(rest));
        assert Squeeze(t) == [c] + Squeeze(rest);
      } else if IsSpace(c) {
        assert RemovePunct(t) == [c] + RemovePunct(rest);
        SqueezeCons(c, RemovePunct(rest));
        assert Squeeze(t) == Squeeze(rest);
      } else {
        assert RemovePunct(t) == [c] + RemovePunct(rest);
        SqueezeCons(c, RemovePunct(rest));
        RemovePunctCons(c, Squeeze(rest));
      }
    }
  }

  lemma SqueezeCons(c: char, s: string)
    ensures Squeeze([c] + s) == (if IsSpace(c) then [] else [c]) + Squeeze(s)
  {
    assert ([c] + s)[1..] == s;
  }

  /** The words survive: apart from whitespace, the result of
      `normalizeText` is the input's non-whitespace characters in order, with
      punctuation deleted and ASCII letters lower-cased. */
  lemma NormalizeKeepsWords(s: string)
    ensures Squeeze(NormalizeText(s)) == ToLower(RemovePunct(Squeeze(s)))
  {
    var bare := RemovePunct(CollapseSpaces(s));
    SqueezeLower(Trim(bare));
    SqueezeTrim(bare);
    SqueezePunct(CollapseSpaces(s));
  }

  /** A word character: not whitespace, not punctuation, not upper case. */
  predicate Plain(c: char) {
    !IsSpace(c) && !IsPunct(c) && !IsUpperAscii(c)
  }

  /** `normalizeText` is not idempotent: whitespace is collapsed before the
      punctuation between two spaces is deleted, so "x . y" keeps a double
      space, which only a second pass collapses. */
  lemma NormalizeNotIdempotent(x: char, y: char)
    requires Plain(x) && Plain(y)
    ensures NormalizeText([x, ' ', '.', ' ', y]) == [x, ' ', ' ', y]
    ensures NormalizeText(NormalizeText([x, ' ', '.', ' ', y])) == [x, ' ', y]
  {
    NormalizeDotted(x, y);
    NormalizeDouble(x, y);
  }

  lemma NormalizeDotted(x: char, y: char)
    requires Plain(x) && Plain(y)
    ensures NormalizeText([x, ' ', '.', ' ', y]) == [x, ' ', ' ', y]
  {
    var t, u := [x, ' ', '.', ' ', y], [x, ' ', ' ', y];
    CollapseDotted(x, y);
    PunctDotted(x, y);
    assert ToLower(Trim(u)) == u by {
      assert IsTrimmed(u) && NoUpper(u);
      LowerTrimFixes(u);
    }
    NormalizeSteps(t, t, u);
  }

  lemma NormalizeDouble(x: char, y: char)
    requires Plain(x) && Plain(y)
    ensures NormalizeText([x, ' ', ' ', y]) == [x, ' ', y]
  {
    var t, u := [x, ' ', ' ', y], [x, ' ', y];
    CollapseDoubleGap(x, y);
    assert RemovePunct(u) == u by {
      assert NoPunct(u);
    }
    assert ToLower(Trim(u)) == u by {
      assert IsTrimmed(u) && NoUpper(u);
      LowerTrimFixes(u);
    }
    NormalizeSteps(t, u, u);
  }

  /** `normalizeText` from the results of its three stages. */
  lemma NormalizeSteps(s: string, collapsed: string, r: string)
    requires CollapseSpaces(s) == collapsed && RemovePunct(collapsed) == r
    requires ToLower(Trim(r)) == r
    ensures NormalizeText(s) == r
  {
  }

  lemma CollapseCons(s: string)
    requires s != [] && !IsSpace(s[0])
    ensures CollapseSpaces(s) == [s[0]] + CollapseSpaces(s[1..])
  {
  }

  lemma TrimStartSpace(s: string)
    requires s != [] && s[0] == ' '
    ensures TrimStart(s) == TrimStart(s[1..])
  {
  }

  /** Single spaces between word characters are left alone. */
  lemma CollapseDotted(x: char, y: char)
    requires !IsSpace(x) && !IsSpace(y)
    ensures CollapseSpaces([x, ' ', '.', ' ', y]) == [x, ' ', '.', ' ', y]
  {
    var t := [x, ' ', '.', ' ', y];
    assert NoDoubleSpace(t) by {
      forall i | 0 <= i < |t| - 1 ensures !(IsSpace(t[i]) && IsSpace(t[i + 1])) {
        assert i == 0 || i == 1 || i == 2 || i == 3;
      }
    }
    assert OnlyPlainSpaces(t);
    CollapseKeepsNormal(t);
  }

  lemma RemovePunctCons(c: char, s: string)
    ensures RemovePunct([c] + s) == (if IsPunct(c) then [] else [c]) + RemovePunct(s)
  {
    assert ([c] + s)[1..] == s;
  }

  /** The full stop between the two spaces is deleted, leaving both spaces. */
  lemma PunctDotted(x: char, y: char)
    requires !IsPunct(x) && !IsPunct(y)
    ensures RemovePunct([x, ' ', '.', ' ', y]) == [x, ' ', ' ', y]
  {
    var tail := [' ', y];
    assert RemovePunct(tail) == tail by {
      assert NoPunct(tail);
    }
    var dotted := [' '] + (['.'] + tail);
    assert RemovePunct(dotted) == [' '] + tail by {
      RemovePunctCons('.', tail);
      RemovePunctCons(' ', ['.'] + tail);
    }
    RemovePunctCons(x, dotted);
    assert [x] + dotted == [x, ' ', '.', ' ', y];
    assert [x] + ([' '] + tail) == [x, ' ', ' ', y];
  }

  /** A double space between two word characters collapses to one. */
  lemma CollapseDoubleGap(x: char, y: char)
    requires !IsSpace(x) && !IsSpace(y)
    ensures CollapseSpaces([x, ' ', ' ', y]) == [x, ' ', y]
  {
    var t := [x, ' ', ' ', y];
    assert t[1..] == [' ', ' ', y];
    CollapseCons(t);
    CollapseRun(y);
    assert [x] + [' ', y] == [x, ' ', y];
  }

  lemma CollapseRun(y: char)
    requires !IsSpace(y)
    ensures CollapseSpaces([' ', ' ', y]) == [' ', y]
  {
    var t := [' ', ' ', y];
    assert TrimStart(t) == [y] by {
      assert t[1..] == [' ', y] && t[1..][1..] == [y];
      TrimStartSpace(t);
      TrimStartSpace(t[1..]);
    }
    assert CollapseSpaces([y]) == [y] by {
      CollapseCons([y]);
      assert [y][1..] == [];
    }
  }

  /** Trimmed text without upper-case letters survives trimming and
      lower-casing. */
  lemma LowerTrimFixes(t: string)
    requires IsTrimmed(t) && NoUpper(t)
    ensures ToLower(Trim(t)) == t
  {
    TrimCharacterization(t);
    LowerFixes(t);
  }

  // ----------------------------------------------- removeConsecutiveDuplicates

  /** The characters the look-behind `(?<=[.!؟])` accepts. */
  predicate IsSentenceEnd(c: char) {
    c == '.' || c == '!' || c == '\U{061F}'
  }

  /** `p` is where the separator `(?<=[.!؟])\s+` starts a match: a whitespace
      character right after a sentence end. */
  predicate SplitsAt(s: string, p: int) {
    0 < p < |s| && IsSentenceEnd(s[p - 1]) && IsSpace(s[p])
  }

  /** End of the maximal whitespace run starting at `p`: how far the greedy `\s+` reaches. */
  function SpaceRunEnd(s: string, p: nat): (e: nat)
    requires p <= |s|
    ensures p <= e <= |s| && AllSpaces(s[p..e]) && (e == |s| || !IsSpace(s[e]))
    decreases |s| - p
  {
    if p < |s| && IsSpace(s[p]) then
      var e := SpaceRunEnd(s, p + 1);
      assert s[p..e] == [s[p]] + s[p + 1..e];
      e
    else p
  }

  /** One piece of `split`, together with the whitespace the separator consumed
      after it (empty for the last piece). */
  datatype Piece = Piece(text: string, gap: string)

  /** The scan of `split`: `start` is where the current piece began, `p` the
      next position to try the separator at. */
  function SplitFrom(s: string, start: nat, p: nat): seq<Piece>
    requires start <= p <= |s|
    decreases |s| - p
  {
    if p == |s| then [Piece(s[start..], [])]
    else if SplitsAt(s, p) then
      var e := SpaceRunEnd(s, p);
      [Piece(s[start..p], s[p..e])] + SplitFrom(s, e, e)
    else SplitFrom(s, start, p + 1)
  }

  /** `text.split(/(?<=[.!؟])\s+/)`, with each piece's trailing separator kept aside. */
  function SplitSentences(s: string): (ps: seq<Piece>)
    ensures |ps| > 0 && Flatten(ps) == s
  {
    SplitFromSpec(s, 0, 0);
    SplitFrom(s, 0, 0)
  }

  function Texts(ps: seq<Piece>): (ts: seq<string>)
    ensures |ts| == |ps| && forall i :: 0 <= i < |ps| ==> ts[i] == ps[i].text
  {
    seq(|ps|, i requires 0 <= i < |ps| => ps[i].text)
  }

  /** The pieces and separators glued back together. */
  function Flatten(ps: seq<Piece>): string {
    if |ps| == 0 then [] else ps[0].text + ps[0].gap + Flatten(ps[1..])
  }

  predicate NoSplitInside(t: string) {
    forall k :: 0 <= k < |t| ==> !SplitsAt(t, k)
  }

  /** What a correct split looks like: only the last piece has no separator;
      every separator is a non-empty whitespace run following a piece that ends
      a sentence; no piece contains a split point; and each separator is maximal,
      so the piece after it does not start with whitespace. */
  predicate WellSplit(ps: seq<Piece>) {
    && |ps| >= 1
    && ps[|ps| - 1].gap == []
    && (forall i :: 0 <= i < |ps| - 1 ==>
          && ps[i].text != [] && IsSentenceEnd(ps[i].text[|ps[i].text| - 1])
          && ps[i].gap != [] && AllSpaces(ps[i].gap))
    && (forall i :: 0 <= i < |ps| ==> NoSplitInside(ps[i].text))
    && (forall i :: 0 < i < |ps| ==> ps[i].text == [] || !IsSpace(ps[i].text[0]))
  }

  lemma {:induction false} SplitFromSpec(s: string, start: nat, p: nat)
    requires start <= p <= |s|
    requires start == 0 || IsSpace(s[start - 1])
    requires forall k :: start < k < p ==> !SplitsAt(s, k)
    ensures WellSplit(SplitFrom(s, start, p))
    ensures Flatten(SplitFrom(s, start, p)) == s[start..]
    decreases |s| - p
  {
    if p == |s| {
      SegmentNoSplit(s, start, p);
      assert s[start..p] == s[start..];
      WellSplitSingle(s[start..]);
    } else if SplitsAt(s, p) {
      var e := SpaceRunEnd(s, p);
      assert p != start;
      SplitFromSpec(s, e, e);
      FirstPieceStart(s, e);
      SplitFromAt(s, start, p);
      SplitStep(s, start, p, SplitFrom(s, e, e));
    } else {
      SplitFromSpec(s, start, p + 1);
    }
  }

  /** A split point ends the current piece: the piece, its separator and a
      well-formed split of the rest make a well-formed split. */
  lemma SplitStep(s: string, start: nat, p: nat, rest: seq<Piece>)
    requires start < p < |s| && SplitsAt(s, p)
    requires forall k :: start < k < p ==> !SplitsAt(s, k)
    requires WellSplit(rest) && OpensClean(rest) && Flatten(rest) == s[SpaceRunEnd(s, p)..]
    ensures var ps := [Piece(s[start..p], s[p..SpaceRunEnd(s, p)])] + rest;
            WellSplit(ps) && Flatten(ps) == s[start..]
  {
    var e := SpaceRunEnd(s, p);
    var pc := Piece(s[start..p], s[p..e]);
    PieceShape(s, start, p);
    WellSplitCons(pc, rest);
    FlattenCons(pc, rest);
    SliceThree(s, start, p, e);
  }

  /** The piece a split point closes ends a sentence, holds no split point,
      and its separator is a non-empty whitespace run. */
  lemma PieceShape(s: string, start: nat, p: nat)
    requires start < p < |s| && SplitsAt(s, p)
    requires forall k :: start < k < p ==> !SplitsAt(s, k)
    ensures SentencePiece(Piece(s[start..p], s[p..SpaceRunEnd(s, p)]))
  {
    SegmentNoSplit(s, start, p);
    assert s[start..p][p - 1 - start] == s[p - 1];
    assert s[p..SpaceRunEnd(s, p)][0] == s[p];
  }

  /** The scan at a split point emits the piece with its separator and starts
      afresh after the separator. */
  lemma SplitFromAt(s: string, start: nat, p: nat)
    requires start <= p < |s| && SplitsAt(s, p)
    ensures var e := SpaceRunEnd(s, p);
            SplitFrom(s, start, p) == [Piece(s[start..p], s[p..e])] + SplitFrom(s, e, e)
  {
  }

  lemma FlattenCons(pc: Piece, rest: seq<Piece>)
    ensures Flatten([pc] + rest) == pc.text + pc.gap + Flatten(rest)
  {
    assert ([pc] + rest)[1..] == rest;
  }

  lemma SliceThree(s: string, a: nat, b: nat, c: nat)
    requires a <= b <= c <= |s|
    ensures s[a..] == s[a..b] + s[b..c] + s[c..]
  {
  }

  /** A segment that spans no split point of `s` has none of its own. */
  lemma SegmentNoSplit(s: string, start: nat, p: nat)
    requires start <= p <= |s|
    requires forall k :: start < k < p ==> !SplitsAt(s, k)
    ensures NoSplitInside(s[start..p])
  {
    var t := s[start..p];
    forall k | 0 <= k < |t| ensures !SplitsAt(t, k) {
      if SplitsAt(t, k) {
        assert SplitsAt(s, start + k);
      }
    }
  }

  /** Text without a split point is a split of one piece. */
  lemma WellSplitSingle(t: string)
    requires NoSplitInside(t)
    ensures WellSplit([Piece(t, [])]) && Flatten([Piece(t, [])]) == t
  {
    assert Flatten([Piece(t, [])]) == t + [] + Flatten([]);
  }

  /** A non-final piece of a split: a sentence with no split point inside,
      followed by a whitespace separator. */
  predicate SentencePiece(pc: Piece) {
    && pc.text != [] && IsSentenceEnd(pc.text[|pc.text| - 1])
    && pc.gap != [] && AllSpaces(pc.gap) && NoSplitInside(pc.text)
  }

  /** The first piece does not start with whitespace. */
  predicate OpensClean(ps: seq<Piece>) {
    |ps| > 0 && (ps[0].text == [] || !IsSpace(ps[0].text[0]))
  }

  /** A sentence with its separator in front of a well-formed split is one. */
  lemma WellSplitCons(pc: Piece, rest: seq<Piece>)
    requires WellSplit(rest) && OpensClean(rest) && SentencePiece(pc)
    ensures WellSplit([pc] + rest)
  {
    var ps := [pc] + rest;
    assert forall i :: 0 < i < |ps| ==> ps[i] == rest[i - 1];
  }

  /** The first piece of a scan that starts on a non-whitespace character (or at the end) does not start with whitespace. */
  lemma {:induction false} FirstPieceStart(s: string, start: nat)
    requires start <= |s|
    requires start == |s| || !IsSpace(s[start])
    ensures OpensClean(SplitFrom(s, start, start))
  {
    FirstPieceScan(s, start, start);
  }

  lemma {:induction false} FirstPieceScan(s: string, start: nat, p: nat)
    requires start <= p <= |s|
    requires start == |s| || !IsSpace(s[start])
    ensures var ps := SplitFrom(s, start, p);
            |ps| > 0 && (ps[0].text == [] || ps[0].text[0] == s[start])
    decreases |s| - p
  {
    if p < |s| && !SplitsAt(s, p) {
      FirstPieceScan(s, start, p + 1);
    }
  }

  /** The split of any text is well formed. */
  lemma SplitSentencesWell(s: string)
    ensures WellSplit(SplitSentences(s))
  {
    SplitFromSpec(s, 0, 0);
  }

  /** Whether the `i`-th piece survives: it is non-empty and differs from the
      piece just before it in the split (the first piece has none). */
  predicate Kept(xs: seq<string>, i: int)
    requires 0 <= i < |xs|
  {
    xs[i] != [] && (i == 0 || xs[i] != xs[i - 1])
  }

  /** The filtering loop of `removeConsecutiveDuplicates`. */
  function DropRepeats(xs: seq<string>): (r: seq<string>)
    ensures |r| <= |xs|
    ensures forall i :: 0 <= i < |r| ==> r[i] != [] && r[i] in xs
  {
    if |xs| == 0 then []
    else DropRepeats(xs[..|xs| - 1]) + (if Kept(xs, |xs| - 1) then [xs[|xs| - 1]] else [])
  }

  /** How many of the first `n` pieces survive. */
  function CountKept(xs: seq<string>, n: nat): nat
    requires n <= |xs|
  {
    if n == 0 then 0 else CountKept(xs, n - 1) + (if Kept(xs, n - 1) then 1 else 0)
  }

  /** Survival of an early piece does not depend on the pieces after it. */
  lemma {:induction false} CountKeptPrefix(xs: seq<string>, m: nat, k: nat)
    requires k <= m <= |xs|
    ensures CountKept(xs[..m], k) == CountKept(xs, k)
  {
    if k > 0 {
      CountKeptPrefix(xs, m, k - 1);
      assert xs[..m][k - 1] == xs[k - 1];
      if k > 1 {
        assert xs[..m][k - 2] == xs[k - 2];
      }
    }
  }

  lemma KeptPrefix(xs: seq<string>, m: nat, i: nat)
    requires i < m <= |xs|
    ensures Kept(xs[..m], i) == Kept(xs, i) && xs[..m][i] == xs[i]
  {
    if i > 0 {
      assert xs[..m][i - 1] == xs[i - 1];
    }
  }

  /** Surviving pieces keep their order: a kept piece comes before every
      survivor that follows it. */
  lemma {:induction false} CountKeptGrows(xs: seq<string>, i: nat, j: nat)
    requires i < j <= |xs| && Kept(xs, i)
    ensures CountKept(xs, i) < CountKept(xs, j)
  {
    if j > i + 1 {
      CountKeptGrows(xs, i, j - 1);
    }
  }

  /** The result is exactly the surviving pieces, in order: it has one entry
      per kept piece, and the `i`-th piece, when kept, sits at the position
      given by the number of survivors before it. */
  lemma {:induction false} DropRepeatsSelects(xs: seq<string>)
    ensures |DropRepeats(xs)| == CountKept(xs, |xs|)
    ensures forall i :: 0 <= i < |xs| && Kept(xs, i) ==>
              CountKept(xs, i) < |DropRepeats(xs)| && DropRepeats(xs)[CountKept(xs, i)] == xs[i]
  {
    var n := |xs|;
    if n > 0 {
      var p := xs[..n - 1];
      var r0 := DropRepeats(p);
      var r := DropRepeats(xs);
      assert r == r0 + (if Kept(xs, n - 1) then [xs[n - 1]] else []);
      DropRepeatsSelects(p);
      CountKeptPrefix(xs, n - 1, n - 1);
      forall i | 0 <= i < n && Kept(xs, i)
        ensures CountKept(xs, i) < |r| && r[CountKept(xs, i)] == xs[i]
      {
        if i < n - 1 {
          CountKeptPrefix(xs, n - 1, i);
          KeptPrefix(xs, n - 1, i);
          assert r[CountKept(xs, i)] == r0[CountKept(xs, i)];
        }
      }
    }
  }

  /** Among non-empty pieces, a run of equal pieces is represented by its first
      element, so the last kept piece equals the last piece. */
  lemma {:induction false} DropRepeatsLast(xs: seq<string>)
    requires |xs| > 0 && forall i :: 0 <= i < |xs| ==> xs[i] != []
    ensures |DropRepeats(xs)| > 0 && DropRepeats(xs)[|DropRepeats(xs)| - 1] == xs[|xs| - 1]
  {
    var n := |xs|;
    if !Kept(xs, n - 1) {
      DropRepeatsLast(xs[..n - 1]);
    }
  }

  /** No two neighbours are equal. */
  predicate NoAdjacentRepeats(xs: seq<string>) {
    forall i :: 0 <= i < |xs| - 1 ==> xs[i] != xs[i + 1]
  }

  /** Without empty pieces, no two neighbours of the result are equal. */
  lemma {:induction false} DropRepeatsNoAdjacent(xs: seq<string>)
    requires forall i :: 0 <= i < |xs| ==> xs[i] != []
    ensures NoAdjacentRepeats(DropRepeats(xs))
  {
    var n := |xs|;
    if n > 0 {
      var r0 := DropRepeats(xs[..n - 1]);
      DropRepeatsNoAdjacent(xs[..n - 1]);
      if Kept(xs, n - 1) && n > 1 {
        DropRepeatsLast(xs[..n - 1]);
        assert r0[|r0| - 1] == xs[n - 2];
      }
    }
  }

  /** A trailing empty piece never survives. */
  lemma DropRepeatsTrailingEmpty(xs: seq<string>)
    requires |xs| > 0 && xs[|xs| - 1] == []
    ensures DropRepeats(xs) == DropRepeats(xs[..|xs| - 1])
  {
  }

  /** `removeConsecutiveDuplicates`: split into sentences, drop empty pieces and
      pieces equal to their predecessor, join with single spaces, trim. */
  function RemoveConsecutiveDuplicates(s: string): (r: string)
    ensures IsTrimmed(r)
  {
    Trim(Join(DropRepeats(Texts(SplitSentences(s))), " "))
  }

  /** In the pieces of a real split no two surviving neighbours are equal. */
  lemma SurvivorsDistinct(s: string)
    ensures NoAdjacentRepeats(DropRepeats(Texts(SplitSentences(s))))
  {
    var ps := SplitSentences(s);
    var ts := Texts(ps);
    assert |ts| > 0 && forall i :: 0 <= i < |ts| - 1 ==> ts[i] != [] by {
      SplitSentencesWell(s);
      assert forall i :: 0 <= i < |ps| - 1 ==> ps[i].text != [];
    }
    DropRepeatsDistinct(ts);
  }

  /** Pieces that are empty only possibly at the end leave no equal
      neighbours behind. */
  lemma DropRepeatsDistinct(ts: seq<string>)
    requires |ts| > 0 && forall i :: 0 <= i < |ts| - 1 ==> ts[i] != []
    ensures NoAdjacentRepeats(DropRepeats(ts))
  {
    var n := |ts|;
    if ts[n - 1] == [] {
      DropRepeatsTrailingEmpty(ts);
      DropRepeatsNoAdjacent(ts[..n - 1]);
    } else {
      DropRepeatsNoAdjacent(ts);
    }
  }

  /** A text with no sentence break followed by whitespace is one sentence:
      the function only trims it. */
  lemma SingleSentence(s: string)
    requires forall p :: 0 <= p < |s| ==> !SplitsAt(s, p)
    ensures RemoveConsecutiveDuplicates(s) == Trim(s)
  {
    OnePiece(s);
    var ps := SplitSentences(s);
    assert Texts(ps) == [s];
    if s == [] {
      assert DropRepeats([s]) == [];
    } else {
      assert DropRepeats([s]) == [s];
    }
  }

  /** Without a split point the split is the whole text. */
  lemma OnePiece(s: string)
    requires forall p :: 0 <= p < |s| ==> !SplitsAt(s, p)
    ensures SplitSentences(s) == [Piece(s, [])]
  {
    var ps := SplitSentences(s);
    SplitSentencesWell(s);
    if |ps| > 1 {
      var t := ps[0].text;
      assert s == t + ps[0].gap + Flatten(ps[1..]);
      assert s[|t| - 1] == t[|t| - 1] && s[|t|] == ps[0].gap[0];
      assert SplitsAt(s, |t|);
    }
    assert |ps| == 1 && ps[0].gap == [] && ps[1..] == [];
    assert s == ps[0].text + ps[0].gap + Flatten(ps[1..]);
    assert s == ps[0].text;
    assert ps[0] == Piece(s, []);
    assert ps == [ps[0]];
  }
}
