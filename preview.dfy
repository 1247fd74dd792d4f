/**
 * The preview spacer of the current controller: empty lines inserted below
 * the anchor line so that a multi-line suggestion has room, remembered as
 * `previewSpacer` and deleted again by `clearPreviewSpace`. The document and
 * the spacer record are modelled together as one value; the controller's
 * methods are proved against the functions here.
 */
module Preview {
  import opened Wrappers
  import opened Text
  import opened Host
  import opened Layout

  /** `previewSpacer`: the first inserted line and how many lines were inserted there. */
  datatype Spacer = Spacer(anchorLine: nat, count: nat)

  datatype PreviewState = PreviewState(lines: seq<string>, spacer: Option<Spacer>)

  /** `n` empty document lines. */
  function BlankLines(n: nat): (r: seq<string>)
    ensures |r| == n && forall i | 0 <= i < n :: r[i] == ""
  {
    seq(n, i requires 0 <= i < n => "")
  }

  function Min(a: int, b: int): int
  {
    if a <= b then a else b
  }

  /** `clearPreviewSpace` issues its delete edit. */
  predicate ClearEdits(p: PreviewState)
  {
    p.spacer.Some? && p.spacer.value.count > 0 && p.spacer.value.anchorLine < |p.lines|
  }

  /** `clearPreviewSpace(editor)`: delete from the anchor line to `anchorLine + count`, clamped to
      the last line, and forget the spacer. */
  function ClearPreview(p: PreviewState): (q: PreviewState)
    ensures q.spacer.None?
    ensures |q.lines| <= |p.lines| && (|p.lines| >= 1 ==> |q.lines| >= 1)
  {
    if !ClearEdits(p) then PreviewState(p.lines, None)
    else
      var a := p.spacer.value.anchorLine;
      var e := Min(a + p.spacer.value.count, |p.lines| - 1);
      PreviewState(p.lines[..a] + p.lines[e..], None)
  }

  /** The state `ensurePreviewSpace` continues from: the spacer is cleared first when it belongs
      to another anchor. */
  function Settled(p: PreviewState, lineNumber: nat): (q: PreviewState)
    ensures q.spacer.Some? ==> q.spacer == p.spacer && q.spacer.value.anchorLine == lineNumber + 1
  {
    if p.spacer.Some? && p.spacer.value.anchorLine != lineNumber + 1 then ClearPreview(p) else p
  }

  /** `ensurePreviewSpace` issues its insert edit. */
  predicate EnsureEdits(p: PreviewState, lineNumber: nat, required: int)
  {
    required > 0 && GrowEdits(Settled(p, lineNumber), lineNumber, required)
  }

  /** The insert edit, from the settled state: the line below the anchor exists and the blank lines
      there fall short of `required`. */
  predicate GrowEdits(s: PreviewState, lineNumber: nat, required: int)
  {
    lineNumber + 1 <= |s.lines| && required - BlankRunAfter(s.lines, lineNumber) > 0
  }

  /** `ensurePreviewSpace` issues an edit: the delete of a spacer at another anchor, or its insert. */
  predicate EnsureTouches(p: PreviewState, lineNumber: nat, required: int)
  {
    required > 0
    && ((p.spacer.Some? && p.spacer.value.anchorLine != lineNumber + 1 && ClearEdits(p))
        || EnsureEdits(p, lineNumber, required))
  }

  /** `n` empty lines inserted before line `anchor`. */
  function InsertBlankLines(lines: seq<string>, anchor: nat, n: nat): (r: seq<string>)
    requires anchor <= |lines|
    ensures r == lines[..anchor] + BlankLines(n) + lines[anchor..]
    ensures |r| == |lines| + n
    ensures r[..anchor] == lines[..anchor] && r[anchor + n..] == lines[anchor..]
    ensures forall k | anchor <= k < anchor + n :: r[k] == ""
  {
    var r := lines[..anchor] + BlankLines(n) + lines[anchor..];
    assert r[anchor + n..] == lines[anchor..];
    r
  }

  /** The part of `ensurePreviewSpace` after a possible clear. */
  function Grow(s: PreviewState, lineNumber: nat, required: int): PreviewState
  {
    if lineNumber + 1 > |s.lines| then s
    else GrowBy(s, lineNumber + 1, required - BlankRunAfter(s.lines, lineNumber))
  }

  /** Insert `needed` empty lines at the anchor, when that is a positive number. */
  function GrowBy(s: PreviewState, anchor: nat, needed: int): PreviewState
    requires anchor <= |s.lines|
  {
    if needed <= 0 then s
    else
      PreviewState(InsertBlankLines(s.lines, anchor, needed),
                   Some(Spacer(anchor, if s.spacer.Some? then s.spacer.value.count + needed else needed)))
  }

  /** `ensurePreviewSpace(editor, lineNumber, requiredExtraLines)`: insert as many empty lines at
      `lineNumber + 1` as the blank lines already there fall short of `required`. */
  function EnsurePreview(p: PreviewState, lineNumber: nat, required: int): PreviewState
  {
    if required <= 0 then p else Grow(Settled(p, lineNumber), lineNumber, required)
  }

  /** The steps of `ensurePreviewSpace` for a positive request: with the line below the anchor
      missing from the settled document it stops there, otherwise it grows the settled state by
      what the blank lines already there fall short of; it edits exactly when that is positive. */
  lemma EnsureSteps(p: PreviewState, lineNumber: nat, required: int, available: nat)
    requires required > 0
    requires lineNumber + 1 <= |Settled(p, lineNumber).lines| ==>
             available == BlankRunAfter(Settled(p, lineNumber).lines, lineNumber)
    ensures var s := Settled(p, lineNumber);
            if lineNumber + 1 > |s.lines| then EnsurePreview(p, lineNumber, required) == s
                                              && !EnsureEdits(p, lineNumber, required)
            else EnsurePreview(p, lineNumber, required) == GrowBy(s, lineNumber + 1, required - available)
                 && (EnsureEdits(p, lineNumber, required) <==> required - available > 0)
  {
  }

  /** After any clear, `ensurePreviewSpace` only inserts: the lines of the settled document stay. */
  lemma EnsureKeepsAnchor(p: PreviewState, lineNumber: nat, required: int)
    requires required > 0
    ensures |EnsurePreview(p, lineNumber, required).lines| >= |Settled(p, lineNumber).lines|
  {
    EnsureSteps(p, lineNumber, required, BlankRunAfter(Settled(p, lineNumber).lines, lineNumber));
  }

  /** A successful `ensurePreviewSpace` inserts exactly `needed` empty lines at `lineNumber + 1`
      and adds them to the spacer of that anchor. */
  lemma EnsureInserts(p: PreviewState, lineNumber: nat, required: int)
    requires EnsureEdits(p, lineNumber, required)
    ensures var s := Settled(p, lineNumber); var q := EnsurePreview(p, lineNumber, required);
            var needed := required - BlankRunAfter(s.lines, lineNumber);
            |q.lines| == |s.lines| + needed
            && q.lines[..lineNumber + 1] == s.lines[..lineNumber + 1]
            && (forall k | lineNumber + 1 <= k < lineNumber + 1 + needed :: q.lines[k] == "")
            && q.lines[lineNumber + 1 + needed..] == s.lines[lineNumber + 1..]
            && q.spacer == Some(Spacer(lineNumber + 1, needed + if s.spacer.Some? then s.spacer.value.count else 0))
  {
    var s := Settled(p, lineNumber);
    assert EnsurePreview(p, lineNumber, required) == Grow(s, lineNumber, required);
    GrowInserts(s, lineNumber, required);
  }

  /** The insert step on the settled state. */
  lemma GrowInserts(s: PreviewState, lineNumber: nat, required: int)
    requires GrowEdits(s, lineNumber, required)
    ensures var q := Grow(s, lineNumber, required);
            var needed := required - BlankRunAfter(s.lines, lineNumber);
            |q.lines| == |s.lines| + needed
            && q.lines[..lineNumber + 1] == s.lines[..lineNumber + 1]
            && (forall k | lineNumber + 1 <= k < lineNumber + 1 + needed :: q.lines[k] == "")
            && q.lines[lineNumber + 1 + needed..] == s.lines[lineNumber + 1..]
            && q.spacer == Some(Spacer(lineNumber + 1, needed + if s.spacer.Some? then s.spacer.value.count else 0))
  {
    var needed := required - BlankRunAfter(s.lines, lineNumber);
    assert Grow(s, lineNumber, required).lines == InsertBlankLines(s.lines, lineNumber + 1, needed);
  }

  /** After `ensurePreviewSpace`, as long as the line is still in the document, at least
      `required` blank lines follow it. */
  lemma {:induction false} EnsureMakesRoom(p: PreviewState, lineNumber: nat, required: int)
    requires lineNumber < |Settled(p, lineNumber).lines|
    ensures BlankRunAfter(EnsurePreview(p, lineNumber, required).lines, lineNumber) >= required
  {
    if EnsureEdits(p, lineNumber, required) {
      GrowMakesRoom(Settled(p, lineNumber), lineNumber, required);
    }
  }

  lemma {:induction false} GrowMakesRoom(s: PreviewState, lineNumber: nat, required: int)
    requires lineNumber < |s.lines|
    requires required - BlankRunAfter(s.lines, lineNumber) > 0
    ensures BlankRunAfter(Grow(s, lineNumber, required).lines, lineNumber) >= required
  {
    var a := lineNumber + 1;
    var needed := required - BlankRunAfter(s.lines, lineNumber);
    assert Grow(s, lineNumber, required).lines == InsertBlankLines(s.lines, a, needed);
    InsertLengthensRun(s.lines, a, needed);
  }

  /** Empty lines inserted at `a` lengthen the blank run starting there by their number. */
  lemma {:induction false} InsertLengthensRun(lines: seq<string>, a: nat, n: nat)
    requires a <= |lines|
    ensures BlankRunFrom(InsertBlankLines(lines, a, n), a) == n + BlankRunFrom(lines, a)
  {
    BlankLinesAreBlank(n);
    assert lines[..a] + lines[a..] == lines;
    BlankRunFromInsert(lines[..a], BlankLines(n), lines[a..]);
  }

  lemma {:induction false} BlankLinesAreBlank(n: nat)
    ensures forall k | 0 <= k < n :: IsBlank(BlankLines(n)[k])
  {
    forall k | 0 <= k < n
      ensures IsBlank(BlankLines(n)[k])
    {
      assert BlankLines(n)[k] == "";
    }
  }

  /** The spacer is `c` empty lines inserted into `base` at the anchor, or nothing at all. */
  predicate SpacerOver(p: PreviewState, base: seq<string>)
  {
    match p.spacer
    case None => p.lines == base
    case Some(sp) => sp.anchorLine < |base| && p.lines == base[..sp.anchorLine] + BlankLines(sp.count) + base[sp.anchorLine..]
  }

  /** Clearing takes the spacer's lines out again. */
  lemma {:induction false} ClearRestores(p: PreviewState, base: seq<string>)
    requires SpacerOver(p, base)
    ensures ClearPreview(p) == PreviewState(base, None)
  {
    if p.spacer.Some? {
      var a := p.spacer.value.anchorLine;
      var c := p.spacer.value.count;
      assert p.lines[..a] == base[..a];
      assert p.lines[a + c..] == base[a..];
      if c == 0 {
        assert base[..a] + base[a..] == base;
      } else {
        assert base[..a] + base[a..] == base;
      }
    }
  }

  /** `ensurePreviewSpace` keeps the spacer an insertion into the same base document whenever the
      line below the anchor line exists in that document; the count accumulates at one anchor. */
  lemma {:induction false} EnsureKeepsSpacer(p: PreviewState, base: seq<string>, lineNumber: nat, required: int)
    requires SpacerOver(p, base) && lineNumber + 1 < |base|
    ensures SpacerOver(EnsurePreview(p, lineNumber, required), base)
  {
    var s := Settled(p, lineNumber);
    if p.spacer.Some? && p.spacer.value.anchorLine != lineNumber + 1 {
      ClearRestores(p, base);
    }
    if required > 0 {
      assert EnsurePreview(p, lineNumber, required) == Grow(s, lineNumber, required);
      GrowKeepsSpacer(s, base, lineNumber, required);
    }
  }

  lemma {:induction false} GrowKeepsSpacer(s: PreviewState, base: seq<string>, lineNumber: nat, required: int)
    requires SpacerOver(s, base) && lineNumber + 1 < |base|
    requires s.spacer.Some? ==> s.spacer.value.anchorLine == lineNumber + 1
    ensures SpacerOver(Grow(s, lineNumber, required), base)
  {
    SpacerOverLength(s, base);
    GrowByKeepsSpacer(s, base, lineNumber + 1, required - BlankRunAfter(s.lines, lineNumber));
    SpacerOverGrow(s, base, lineNumber, required);
  }

  lemma SpacerOverGrow(s: PreviewState, base: seq<string>, lineNumber: nat, required: int)
    requires lineNumber + 1 <= |s.lines|
    requires SpacerOver(GrowBy(s, lineNumber + 1, required - BlankRunAfter(s.lines, lineNumber)), base)
    ensures SpacerOver(Grow(s, lineNumber, required), base)
  {
  }

  lemma {:induction false} SpacerOverLength(s: PreviewState, base: seq<string>)
    requires SpacerOver(s, base)
    ensures |s.lines| >= |base|
  {
  }

  lemma {:induction false} GrowByKeepsSpacer(s: PreviewState, base: seq<string>, a: nat, needed: int)
    requires SpacerOver(s, base) && a < |base| && a <= |s.lines|
    requires s.spacer.Some? ==> s.spacer.value.anchorLine == a
    ensures SpacerOver(GrowBy(s, a, needed), base)
  {
    var c := if s.spacer.Some? then s.spacer.value.count else 0;
    assert s.lines == base[..a] + BlankLines(c) + base[a..] by {
      if s.spacer.None? { assert base[..a] + [] + base[a..] == base; }
    }
    if needed > 0 {
      InsertIntoSpacer(base, a, c, needed);
    }
  }

  /** Lines inserted at the anchor of a spacer join its run of empty lines. */
  lemma {:induction false} InsertIntoSpacer(base: seq<string>, a: nat, c: nat, n: nat)
    requires a <= |base|
    ensures InsertBlankLines(base[..a] + BlankLines(c) + base[a..], a, n) == base[..a] + BlankLines(n + c) + base[a..]
  {
    var lines := base[..a] + BlankLines(c) + base[a..];
    assert lines[..a] == base[..a];
    assert lines[a..] == BlankLines(c) + base[a..];
    assert BlankLines(n) + BlankLines(c) == BlankLines(n + c);
    assert base[..a] + BlankLines(n) + (BlankLines(c) + base[a..]) == base[..a] + (BlankLines(n) + BlankLines(c)) + base[a..];
  }

  /** The round trip: with no spacer and no edit in between, clearing after `ensurePreviewSpace`
      gives back the original lines whenever `lineNumber + 1` is a line of the document. */
  lemma {:induction false} EnsureThenClearRestores(lines: seq<string>, lineNumber: nat, required: int)
    requires lineNumber + 1 < |lines|
    ensures ClearPreview(EnsurePreview(PreviewState(lines, None), lineNumber, required)).lines == lines
  {
    EnsureKeepsSpacer(PreviewState(lines, None), lines, lineNumber, required);
    ClearRestores(EnsurePreview(PreviewState(lines, None), lineNumber, required), lines);
  }

  /** Below the last line the clamp to `lineCount - 1` keeps one of the inserted lines: the round
      trip leaves one extra empty line at the end of the document. */
  lemma {:induction false} EnsureThenClearAtEnd(lines: seq<string>, required: int)
    requires lines != [] && required > 0
    ensures ClearPreview(EnsurePreview(PreviewState(lines, None), |lines| - 1, required)).lines == lines + [""]
  {
    var ln := |lines| - 1;
    var p := PreviewState(lines, None);
    assert BlankRunAfter(lines, ln) == 0;
    var q := EnsurePreview(p, ln, required);
    assert q.lines == lines + BlankLines(required) by {
      assert lines[..ln + 1] == lines && lines[ln + 1..] == [];
    }
    assert q.lines[|lines| + required - 1..] == [""];
  }

  /** Clearing keeps a document a document. */
  lemma {:induction false} ClearKeepsDocument(p: PreviewState)
    requires IsDocument(p.lines)
    ensures IsDocument(ClearPreview(p).lines)
  {
    if ClearEdits(p) {
      var a := p.spacer.value.anchorLine;
      var e := Min(a + p.spacer.value.count, |p.lines| - 1);
      var q := p.lines[..a] + p.lines[e..];
      assert forall k | 0 <= k < |q| :: q[k] == if k < a then p.lines[k] else p.lines[k - a + e];
    }
  }

  /** So does `ensurePreviewSpace`. */
  lemma {:induction false} EnsureKeepsDocument(p: PreviewState, lineNumber: nat, required: int)
    requires IsDocument(p.lines)
    ensures IsDocument(EnsurePreview(p, lineNumber, required).lines)
  {
    if required > 0 {
      var s := Settled(p, lineNumber);
      if p.spacer.Some? && p.spacer.value.anchorLine != lineNumber + 1 {
        ClearKeepsDocument(p);
      }
      assert IsDocument(s.lines);
      GrowKeepsDocument(s, lineNumber, required);
    }
  }

  lemma {:induction false} GrowKeepsDocument(s: PreviewState, lineNumber: nat, required: int)
    requires IsDocument(s.lines)
    ensures IsDocument(Grow(s, lineNumber, required).lines)
  {
    if lineNumber + 1 <= |s.lines| {
      var n := required - BlankRunAfter(s.lines, lineNumber);
      if n > 0 {
        assert Grow(s, lineNumber, required).lines == InsertBlankLines(s.lines, lineNumber + 1, n);
        InsertKeepsDocument(s.lines, lineNumber + 1, n);
      }
    }
  }

  lemma {:induction false} InsertKeepsDocument(lines: seq<string>, a: nat, n: nat)
    requires IsDocument(lines) && a <= |lines|
    ensures IsDocument(InsertBlankLines(lines, a, n))
  {
    var q := InsertBlankLines(lines, a, n);
    forall k | 0 <= k < |q|
      ensures IsLine(q[k])
    {
      if k < a {
        assert q[k] == lines[k];
      } else if k >= a + n {
        assert q[k] == lines[k - n];
      }
    }
  }
}
