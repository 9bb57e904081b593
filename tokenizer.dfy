/**
 * The event loop of `MXParser` (`nextImpl`, `parseProlog`, `parseEpilog`),
 * stated over the whole input like the recognisers of `Scans` and
 * `Markup`: from the offset the parser has reached and the read-ahead it
 * remembers, the event the next call reports, how far it reads, and how
 * the text of a TEXT event is assembled from the input buffer and the side
 * buffer `pc`.
 */
module Tokenizer {
  import opened Kotlin
  import opened Wrappers
  import opened ParserErrors
  import opened Scans
  import XmlChars
  import Markup
  import StartTag
  import Parser
  import Utils

  const LT: CodeUnit := Markup.LT
  const AMP: CodeUnit := StartTag.AMP
  const BANG: CodeUnit := '!' as int
  const RBRACKET: CodeUnit := Markup.RBRACKET

  // ---------------------------------------------------------------------
  // Text assembly

  /**
   * Where the text of the current event is: `buf[posStart..posEnd)`, here
   * as input offsets, unless `usePC`, when it is the side buffer's
   * `pc[0..pcEnd)`.
   */
  datatype Gather = Gather(posStart: nat, posEnd: nat, usePC: bool, pc: Str)

  /** Every event starts with nothing in the side buffer. */
  predicate GatherOk(g: Gather)
  {
    !g.usePC ==> g.pc == []
  }

  /** The text `getText` reports, read at `end` instead of `posEnd` (for `end == posEnd` it is the event's text). */
  function TextAt(s: Str, g: Gather, end: nat): Str
    requires g.posStart <= end <= |s|
  {
    if g.usePC then g.pc else s[g.posStart..end]
  }

  /** `joinPC`: append `buf[posStart..posEnd)` to the side buffer and use it from now on. */
  function JoinPC(s: Str, g: Gather): (r: Gather)
    requires g.posStart <= g.posEnd <= |s|
    ensures r.usePC && r.posStart == g.posStart && r.posEnd == g.posEnd
  {
    g.(usePC := true, pc := g.pc + s[g.posStart..g.posEnd])
  }

  /**
   * One character `s[i]` of normalised character data: a `\r` ends the text
   * in the buffer and writes `\n` to the side buffer, a `\n` right after a
   * `\r` is dropped, and from the first `\r` on every other character is
   * copied.
   */
  function EolGather(s: Str, i: nat, normalizedCR: bool, g: Gather): (r: Gather)
    requires i < |s| && g.posStart <= i && GatherOk(g)
    ensures GatherOk(r) && r.posStart == g.posStart && (g.usePC ==> r.usePC)
    ensures s[i] == XmlChars.CR ==> r.usePC
    ensures s[i] != XmlChars.CR ==> r.usePC == g.usePC && r.posEnd == g.posEnd
  {
    var ch := s[i];
    if ch == XmlChars.CR then
      var h := g.(posEnd := i);
      var h1 := if h.usePC then h else if h.posEnd > h.posStart then JoinPC(s, h) else h.(usePC := true, pc := []);
      h1.(pc := h1.pc + [XmlChars.LF])
    else if ch == XmlChars.LF then
      if !normalizedCR && g.usePC then g.(pc := g.pc + [XmlChars.LF]) else g
    else if g.usePC then g.(pc := g.pc + [ch]) else g
  }

  /** What `EolGather` adds to the text is the streaming normalisation step of section 2.11. */
  lemma EolGatherStep(s: Str, i: nat, normalizedCR: bool, g: Gather)
    requires i < |s| && g.posStart <= i && GatherOk(g) && (normalizedCR ==> g.usePC)
    ensures TextAt(s, EolGather(s, i, normalizedCR, g), i + 1) == TextAt(s, g, i) + XmlChars.EolStep(s[i], normalizedCR)
  {
    if !g.usePC {
      assert s[g.posStart..i + 1] == s[g.posStart..i] + [s[i]];
    }
  }

  // ---------------------------------------------------------------------
  // Character data (section 2.4, production [14])

  /** The end of the character data that starts at `i`: the next `<` or `&`, or the end of the input. */
  function RunEnd(s: Str, i: nat): (j: nat)
    requires i <= |s|
    ensures i <= j <= |s| && (j < |s| ==> s[j] == LT || s[j] == AMP)
    ensures forall k :: i <= k < j ==> s[k] != LT && s[k] != AMP
    decreases |s| - i
  {
    if i == |s| || s[i] == LT || s[i] == AMP then i else RunEnd(s, i + 1)
  }

  /** `seenBracket` and `seenBracketBracket` after the character `ch`: whether the text now ends with `]` and with `]]`. */
  function Brackets(ch: CodeUnit, seenBracket: bool, seenBracketBracket: bool): (bool, bool)
  {
    if ch == RBRACKET then (true, if seenBracket then true else seenBracketBracket)
    else if seenBracket then (false, false)
    else (seenBracket, seenBracketBracket)
  }

  /**
   * The character-data loop of `nextImpl` at `s[i]`, which it has consumed:
   * `]]>` is refused, the text is gathered (normalised when `normalize`),
   * and the loop stops before the next `<` or `&`, setting `posEnd` there.
   */
  function CharDataLoop(s: Str, i: nat, normalize: bool, seenBracket: bool, seenBracketBracket: bool,
                        normalizedCR: bool, g: Gather): (r: StartTag.Parsed<Gather>)
    requires i < |s| && g.posStart <= i && GatherOk(g)
    ensures r.Done? ==> i < r.next < |s| && r.value.posStart == g.posStart && r.value.posEnd == r.next && GatherOk(r.value)
    decreases |s| - i
  {
    var ch := s[i];
    if ch != RBRACKET && seenBracketBracket && ch == Scans.GT then StartTag.Stop(Reject(CdataEndInContent))
    else
      var brackets := Brackets(ch, seenBracket, seenBracketBracket);
      var g1 := if normalize then EolGather(s, i, normalizedCR, g) else g;
      if i + 1 == |s| then StartTag.Stop(Truncated)
      else if s[i + 1] == LT || s[i + 1] == AMP then StartTag.Done(g1.(posEnd := i + 1), i + 1)
      else CharDataLoop(s, i + 1, normalize, brackets.0, brackets.1, ch == XmlChars.CR, g1)
  }

  /** What the bracket and `\r` flags remember of the run `t` read so far. */
  predicate Flags(t: Str, seenBracket: bool, seenBracketBracket: bool, normalizedCR: bool)
  {
    (seenBracket <==> |t| >= 1 && t[|t| - 1] == RBRACKET)
    && (seenBracketBracket <==> |t| >= 2 && t[|t| - 1] == RBRACKET && t[|t| - 2] == RBRACKET)
    && (normalizedCR <==> |t| >= 1 && t[|t| - 1] == XmlChars.CR)
  }

  /** The text gathered at `i` is what was gathered before the run plus the run `s[i0..i)`, normalised when `normalize`. */
  predicate TextState(s: Str, i0: nat, i: nat, normalize: bool, normalizedCR: bool, g: Gather, before: Str)
    requires i0 <= i <= |s|
  {
    (normalize && normalizedCR ==> g.usePC)
    && (!normalize ==> !g.usePC)
    && g.posStart <= i0 && GatherOk(g)
    && TextAt(s, g, i) == before + (if normalize then XmlChars.EolFold(s[i0..i], false) else s[i0..i])
  }

  /** The loop state at `i` of a run that started at `i0` with the text `before` already gathered. */
  predicate RunState(s: Str, i0: nat, i: nat, normalize: bool, seenBracket: bool, seenBracketBracket: bool,
                     normalizedCR: bool, g: Gather, before: Str)
    requires i0 <= i <= |s|
  {
    !XmlChars.HasCdataEnd(s[i0..i])
    && Flags(s[i0..i], seenBracket, seenBracketBracket, normalizedCR)
    && TextState(s, i0, i, normalize, normalizedCR, g, before)
  }

  /** `Brackets` and the `\r` test keep `Flags` in step with the run. */
  lemma FlagsStep(t: Str, ch: CodeUnit, seenBracket: bool, seenBracketBracket: bool, normalizedCR: bool)
    requires Flags(t, seenBracket, seenBracketBracket, normalizedCR)
    ensures var b := Brackets(ch, seenBracket, seenBracketBracket); Flags(t + [ch], b.0, b.1, ch == XmlChars.CR)
  {
    var u := t + [ch];
    assert u[|u| - 1] == ch;
    if |t| >= 1 {
      assert u[|u| - 2] == t[|t| - 1];
    }
  }

  /** One character of normalised text extends the gathered text by its normalisation step. */
  lemma EolTextStep(s: Str, i0: nat, i: nat, normalizedCR: bool, g: Gather, before: Str)
    requires i0 <= i < |s| && g.posStart <= i0 && GatherOk(g) && (normalizedCR ==> g.usePC)
    requires TextAt(s, g, i) == before + XmlChars.EolFold(s[i0..i], false)
    requires XmlChars.EndsWithCR(s[i0..i], false) == normalizedCR
    ensures TextAt(s, EolGather(s, i, normalizedCR, g), i + 1) == before + XmlChars.EolFold(s[i0..i + 1], false)
  {
    var t := s[i0..i];
    assert s[i0..i + 1] == t + [s[i]];
    EolGatherStep(s, i, normalizedCR, g);
    XmlChars.EolFoldSnoc(t, s[i], false);
  }

  /** One character keeps the gathered text in step with the run. */
  lemma TextStep(s: Str, i0: nat, i: nat, normalize: bool, normalizedCR: bool, g: Gather, before: Str)
    requires i0 <= i < |s| && TextState(s, i0, i, normalize, normalizedCR, g, before)
    requires normalizedCR <==> i0 < i && s[i - 1] == XmlChars.CR
    ensures TextState(s, i0, i + 1, normalize, s[i] == XmlChars.CR, if normalize then EolGather(s, i, normalizedCR, g) else g, before)
  {
    if normalize {
      EolTextStep(s, i0, i, normalizedCR, g, before);
    } else {
      assert s[g.posStart..i + 1] == s[g.posStart..i] + [s[i]];
      assert s[i0..i + 1] == s[i0..i] + [s[i]];
    }
  }

  /** Appending one character creates `]]>` exactly when the text ended with `]]` and the character is `>`. */
  lemma HasCdataEndSnoc(t: Str, c: CodeUnit)
    ensures XmlChars.HasCdataEnd(t + [c]) <==>
      XmlChars.HasCdataEnd(t) || (|t| >= 2 && t[|t| - 2] == RBRACKET && t[|t| - 1] == RBRACKET && c == Scans.GT)
  {
    var u := t + [c];
    if XmlChars.HasCdataEnd(u) && !XmlChars.HasCdataEnd(t) {
      var k :| 0 <= k && k + 3 <= |u| && u[k] == ']' as int && u[k + 1] == ']' as int && u[k + 2] == '>' as int;
      assert k + 3 == |u|;
    }
    if XmlChars.HasCdataEnd(t) {
      var k :| 0 <= k && k + 3 <= |t| && t[k] == ']' as int && t[k + 1] == ']' as int && t[k + 2] == '>' as int;
      assert u[k] == t[k] && u[k + 1] == t[k + 1] && u[k + 2] == t[k + 2];
    }
    if |t| >= 2 && t[|t| - 2] == RBRACKET && t[|t| - 1] == RBRACKET && c == Scans.GT {
      assert u[|t| - 2] == ']' as int && u[|t| - 1] == ']' as int && u[|t|] == '>' as int;
    }
  }

  /** `]]>` within a part of the input is within any longer part. */
  lemma HasCdataEndWithin(s: Str, a: nat, b: nat, c: nat)
    requires a <= b <= c <= |s| && XmlChars.HasCdataEnd(s[a..b])
    ensures XmlChars.HasCdataEnd(s[a..c])
  {
    var t := s[a..b];
    var k :| 0 <= k && k + 3 <= |t| && t[k] == ']' as int && t[k + 1] == ']' as int && t[k + 2] == '>' as int;
    var u := s[a..c];
    assert u[k] == t[k] && u[k + 1] == t[k + 1] && u[k + 2] == t[k + 2];
  }

  /** One character that does not complete `]]>` keeps the loop state in step with the run. */
  lemma RunStateStep(s: Str, i0: nat, i: nat, normalize: bool, seenBracket: bool, seenBracketBracket: bool,
                     normalizedCR: bool, g: Gather, before: Str)
    requires i0 <= i < |s| && RunState(s, i0, i, normalize, seenBracket, seenBracketBracket, normalizedCR, g, before)
    requires !(seenBracketBracket && s[i] == Scans.GT)
    ensures var b := Brackets(s[i], seenBracket, seenBracketBracket);
      RunState(s, i0, i + 1, normalize, b.0, b.1, s[i] == XmlChars.CR,
               if normalize then EolGather(s, i, normalizedCR, g) else g, before)
  {
    NoCdataEndStep(s, i0, i, seenBracket, seenBracketBracket, normalizedCR);
    FlagsRunStep(s, i0, i, seenBracket, seenBracketBracket, normalizedCR);
    TextStep(s, i0, i, normalize, normalizedCR, g, before);
  }

  /** A run without `]]>` keeps none when the character does not close `]]`. */
  lemma NoCdataEndStep(s: Str, i0: nat, i: nat, seenBracket: bool, seenBracketBracket: bool, normalizedCR: bool)
    requires i0 <= i < |s| && !XmlChars.HasCdataEnd(s[i0..i]) && Flags(s[i0..i], seenBracket, seenBracketBracket, normalizedCR)
    requires !(seenBracketBracket && s[i] == Scans.GT)
    ensures !XmlChars.HasCdataEnd(s[i0..i + 1])
  {
    assert s[i0..i + 1] == s[i0..i] + [s[i]];
    HasCdataEndSnoc(s[i0..i], s[i]);
  }

  /** `Flags` follow the run one character at a time, and the `\r` flag says the previous character was `\r`. */
  lemma FlagsRunStep(s: Str, i0: nat, i: nat, seenBracket: bool, seenBracketBracket: bool, normalizedCR: bool)
    requires i0 <= i < |s| && Flags(s[i0..i], seenBracket, seenBracketBracket, normalizedCR)
    ensures var b := Brackets(s[i], seenBracket, seenBracketBracket); Flags(s[i0..i + 1], b.0, b.1, s[i] == XmlChars.CR)
    ensures normalizedCR <==> i0 < i && s[i - 1] == XmlChars.CR
  {
    assert s[i0..i + 1] == s[i0..i] + [s[i]];
    FlagsStep(s[i0..i], s[i], seenBracket, seenBracketBracket, normalizedCR);
    if i0 < i {
      assert s[i0..i][i - i0 - 1] == s[i - 1];
    }
  }

  /**
   * What the loop yields for the run `s[i0..j)`: it refuses the run exactly
   * when it holds `]]>`, runs out of input exactly when no `<` or `&`
   * follows, and otherwise stops at `j` with the run's (normalised) text
   * appended to the text `before` it.
   */
  predicate RunResult(s: Str, i0: nat, j: nat, normalize: bool, before: Str, r: StartTag.Parsed<Gather>)
    requires i0 <= j <= |s|
  {
    var bad := XmlChars.HasCdataEnd(s[i0..j]);
    (r == StartTag.Stop(Reject(CdataEndInContent)) <==> bad)
    && (r == StartTag.Stop(Truncated) <==> !bad && j == |s|)
    && (r.Done? <==> !bad && j < |s|)
    && (r.Done? ==>
          r.next == j && r.value.posStart <= j
          && TextAt(s, r.value, j) == before + (if normalize then XmlChars.NormalizeEol(s[i0..j]) else s[i0..j]))
  }

  /** A `>` after `]]` refuses the whole run. */
  lemma RejectResult(s: Str, i0: nat, i: nat, j: nat, normalize: bool, seenBracket: bool, normalizedCR: bool, before: Str)
    requires i0 <= i < j <= |s| && s[i] == Scans.GT && Flags(s[i0..i], seenBracket, true, normalizedCR)
    ensures RunResult(s, i0, j, normalize, before, StartTag.Stop(Reject(CdataEndInContent)))
  {
    assert s[i0..i + 1] == s[i0..i] + [s[i]];
    HasCdataEndSnoc(s[i0..i], s[i]);
    HasCdataEndWithin(s, i0, i + 1, j);
  }

  /** A run that reaches the end of the input without `]]>` runs out of input. */
  lemma TruncatedResult(s: Str, i0: nat, normalize: bool, seenBracket: bool, seenBracketBracket: bool, normalizedCR: bool,
                        g: Gather, before: Str)
    requires i0 <= |s| && RunState(s, i0, |s|, normalize, seenBracket, seenBracketBracket, normalizedCR, g, before)
    ensures RunResult(s, i0, |s|, normalize, before, StartTag.Stop(Truncated))
  {
  }

  /** A run that reaches `<` or `&` without `]]>` stops there with its text gathered. */
  lemma DoneResult(s: Str, i0: nat, j: nat, normalize: bool, seenBracket: bool, seenBracketBracket: bool, normalizedCR: bool,
                   g: Gather, before: Str)
    requires i0 <= j < |s| && RunState(s, i0, j, normalize, seenBracket, seenBracketBracket, normalizedCR, g, before)
    ensures RunResult(s, i0, j, normalize, before, StartTag.Done(g.(posEnd := j), j))
  {
    XmlChars.EolFoldIsNormalizeEol(s[i0..j]);
  }

  /** From any state the run can be in, the loop yields what `RunResult` says of the whole run. */
  lemma {:induction false} CharDataLoopMeetsRun(s: Str, i0: nat, i: nat, normalize: bool, seenBracket: bool,
                                                seenBracketBracket: bool, normalizedCR: bool, g: Gather, before: Str)
    requires i0 <= i < |s| && s[i] != LT && s[i] != AMP
    requires RunState(s, i0, i, normalize, seenBracket, seenBracketBracket, normalizedCR, g, before)
    ensures RunResult(s, i0, RunEnd(s, i), normalize, before, CharDataLoop(s, i, normalize, seenBracket, seenBracketBracket, normalizedCR, g))
    decreases |s| - i
  {
    var ch := s[i];
    var j := RunEnd(s, i);
    assert j == RunEnd(s, i + 1);
    if seenBracketBracket && ch == Scans.GT {
      RejectResult(s, i0, i, j, normalize, seenBracket, normalizedCR, before);
    } else {
      var b := Brackets(ch, seenBracket, seenBracketBracket);
      var g1 := if normalize then EolGather(s, i, normalizedCR, g) else g;
      RunStateStep(s, i0, i, normalize, seenBracket, seenBracketBracket, normalizedCR, g, before);
      if i + 1 == |s| {
        TruncatedResult(s, i0, normalize, b.0, b.1, ch == XmlChars.CR, g1, before);
      } else if s[i + 1] == LT || s[i + 1] == AMP {
        DoneResult(s, i0, i + 1, normalize, b.0, b.1, ch == XmlChars.CR, g1, before);
      } else {
        CharDataLoopMeetsRun(s, i0, i + 1, normalize, b.0, b.1, ch == XmlChars.CR, g1, before);
      }
    }
  }

  /**
   * The character data of `nextImpl` from `i`, a character other than `<`
   * and `&`: refused when it holds `]]>`, otherwise read to the next `<` or
   * `&`, and its text, with `\r\n` and `\r` made `\n` when normalising,
   * appended to the text gathered so far.
   */
  lemma CharDataGrammar(s: Str, i: nat, normalize: bool, g: Gather)
    requires i < |s| && s[i] != LT && s[i] != AMP && g.posStart <= i && GatherOk(g) && (!normalize ==> !g.usePC)
    ensures var r := CharDataLoop(s, i, normalize, false, false, false, g);
      var j := RunEnd(s, i);
      (r == StartTag.Stop(Reject(CdataEndInContent)) <==> XmlChars.HasCdataEnd(s[i..j]))
      && (r == StartTag.Stop(Truncated) <==> !XmlChars.HasCdataEnd(s[i..j]) && j == |s|)
      && (r.Done? <==> !XmlChars.HasCdataEnd(s[i..j]) && j < |s|)
      && (r.Done? ==>
            r.next == j && TextAt(s, r.value, j) == TextAt(s, g, i) + (if normalize then XmlChars.NormalizeEol(s[i..j]) else s[i..j]))
  {
    assert !XmlChars.HasCdataEnd(s[i..i]);
    CharDataLoopMeetsRun(s, i, i, normalize, false, false, false, g, TextAt(s, g, i));
    assert RunResult(s, i, RunEnd(s, i), normalize, TextAt(s, g, i), CharDataLoop(s, i, normalize, false, false, false, g));
  }

  // ---------------------------------------------------------------------
  // The text of a CDATA section (`parseCDSect`, section 2.7)

  /**
   * What `parseCDSect` does first when normalising after character data
   * that is still in the buffer: move that text to the side buffer (or
   * start an empty one) so the section's text can be appended.
   */
  function CDataStart(s: Str, hadCharData: bool, normalize: bool, g: Gather): (r: Gather)
    requires g.posEnd <= |s| && GatherOk(g) && (normalize && hadCharData && !g.usePC ==> g.posStart <= g.posEnd)
    ensures GatherOk(r) && r.posStart == g.posStart && r.posEnd == g.posEnd
  {
    if normalize && hadCharData && !g.usePC then
      if g.posEnd > g.posStart then JoinPC(s, g) else g.(usePC := true, pc := [])
    else g
  }

  /**
   * The loop of `parseCDSect` over `s[k..stop)`, the section's characters
   * up to the `]]` of its end: when normalising, a `\r` first points
   * `posStart` back at the section's start `cdStart`, then each character
   * is gathered as in character data.
   */
  function CDataGatherLoop(s: Str, k: nat, stop: nat, cdStart: nat, normalize: bool, normalizedCR: bool, g: Gather): (r: Gather)
    requires k <= stop <= |s| && g.posStart <= cdStart <= k && GatherOk(g)
    ensures GatherOk(r) && r.posStart <= cdStart && (g.usePC ==> r.usePC)
    ensures !g.usePC && NoCR(s, k, stop) ==> !r.usePC
    decreases stop - k
  {
    if k == stop then g
    else
      var h := if normalize then EolGather(s, k, normalizedCR, if s[k] == XmlChars.CR then g.(posStart := cdStart) else g) else g;
      CDataGatherLoop(s, k + 1, stop, cdStart, normalize, s[k] == XmlChars.CR, h)
  }

  /**
   * The gathering state `parseCDSect` leaves for the section whose content
   * is `s[cdStart..e)` (the `]]>` stands at `e`): the two `]` the loop
   * copied are taken back off the side buffer, and `posStart`/`posEnd`
   * bound the content.
   */
  function CDataGather(s: Str, cdStart: nat, e: nat, hadCharData: bool, normalize: bool, g: Gather): (r: Gather)
    requires g.posStart <= cdStart && g.posEnd <= cdStart <= e && e + 2 <= |s| && GatherOk(g)
    requires normalize && hadCharData && !g.usePC ==> g.posStart <= g.posEnd
    ensures GatherOk(r) && r.posStart == cdStart && r.posEnd == e
    ensures (normalize && hadCharData) || g.usePC ==> r.usePC
    ensures !(normalize && hadCharData) && !g.usePC && NoCR(s, cdStart, e + 2) ==> !r.usePC
  {
    CDataEnd(CDataGatherLoop(s, cdStart, e + 2, cdStart, normalize, false, CDataStart(s, hadCharData, normalize, g)), cdStart, e, normalize)
  }

  /** The end of `parseCDSect`: the two `]` come off the side buffer, and `posStart`/`posEnd` bound the content `[cdStart, e)`. */
  function CDataEnd(g1: Gather, cdStart: nat, e: nat, normalize: bool): (r: Gather)
    requires GatherOk(g1)
    ensures GatherOk(r) && r.posStart == cdStart && r.posEnd == e && r.usePC == g1.usePC
  {
    var g2 := if normalize && g1.usePC then g1.(pc := g1.pc[..if |g1.pc| >= 2 then |g1.pc| - 2 else 0]) else g1;
    g2.(posStart := cdStart, posEnd := e)
  }

  /** No `\r` in `s[a..b)`. */
  predicate NoCR(s: Str, a: nat, b: nat)
    requires a <= b <= |s|
  {
    forall j :: a <= j < b ==> s[j] != XmlChars.CR
  }

  /** Text without `\r` streams through unchanged. */
  lemma EolFoldNoCR(t: Str)
    requires XmlChars.CR !in t
    ensures XmlChars.EolFold(t, false) == t && XmlChars.NormalizeEol(t) == t
  {
    XmlChars.EolFoldIsNormalizeEol(t);
    XmlChars.NormalizeEolRemovesCR(t);
  }

  /**
   * The loop state of `parseCDSect` at `k`: once the side buffer is in use
   * it holds `before` and the normalised section so far; until then there
   * is nothing before the section and no `\r` in it.
   */
  predicate CDataState(s: Str, cdStart: nat, k: nat, normalizedCR: bool, g: Gather, before: Str)
    requires cdStart <= k <= |s|
  {
    GatherOk(g) && g.posStart <= cdStart
    && (normalizedCR <==> cdStart < k && s[k - 1] == XmlChars.CR)
    && (normalizedCR ==> g.usePC)
    && (g.usePC ==> g.pc == before + XmlChars.EolFold(s[cdStart..k], false))
    && (!g.usePC ==> before == [] && NoCR(s, cdStart, k))
  }

  /** Once the side buffer is in use, a character appends its normalisation step. */
  lemma CDataStepInPC(s: Str, cdStart: nat, k: nat, normalizedCR: bool, g: Gather, before: Str)
    requires cdStart <= k < |s| && GatherOk(g) && g.posStart <= cdStart && g.usePC
    requires g.pc == before + XmlChars.EolFold(s[cdStart..k], false)
    requires XmlChars.EndsWithCR(s[cdStart..k], false) == normalizedCR
    ensures var h := EolGather(s, k, normalizedCR, if s[k] == XmlChars.CR then g.(posStart := cdStart) else g);
      h.usePC && h.pc == before + XmlChars.EolFold(s[cdStart..k + 1], false)
  {
    var t := s[cdStart..k];
    assert s[cdStart..k + 1] == t + [s[k]];
    XmlChars.EolFoldSnoc(t, s[k], false);
    var h := if s[k] == XmlChars.CR then g.(posStart := cdStart) else g;
    EolGatherStep(s, k, normalizedCR, h);
  }

  /** The first `\r` of a section with nothing before it moves the section so far to the side buffer. */
  lemma CDataFirstCR(s: Str, cdStart: nat, k: nat, g: Gather)
    requires cdStart <= k < |s| && GatherOk(g) && g.posStart <= cdStart && !g.usePC
    requires NoCR(s, cdStart, k) && s[k] == XmlChars.CR
    ensures var h := EolGather(s, k, false, g.(posStart := cdStart));
      h.usePC && h.pc == XmlChars.EolFold(s[cdStart..k + 1], false)
  {
    var t := s[cdStart..k];
    assert s[cdStart..k + 1] == t + [s[k]];
    XmlChars.EolFoldSnoc(t, s[k], false);
    assert XmlChars.CR !in t;
    EolFoldNoCR(t);
  }

  /** One character of the section keeps `CDataState`. */
  lemma CDataStateStep(s: Str, cdStart: nat, k: nat, normalizedCR: bool, g: Gather, before: Str)
    requires cdStart <= k < |s| && CDataState(s, cdStart, k, normalizedCR, g, before)
    ensures CDataState(s, cdStart, k + 1, s[k] == XmlChars.CR,
                       EolGather(s, k, normalizedCR, if s[k] == XmlChars.CR then g.(posStart := cdStart) else g), before)
  {
    if g.usePC {
      assert XmlChars.EndsWithCR(s[cdStart..k], false) == normalizedCR;
      CDataStepInPC(s, cdStart, k, normalizedCR, g, before);
    } else if s[k] == XmlChars.CR {
      CDataFirstCR(s, cdStart, k, g);
    }
  }

  lemma {:induction false} CDataGatherLoopState(s: Str, cdStart: nat, k: nat, stop: nat, normalizedCR: bool, g: Gather, before: Str)
    requires cdStart <= k <= stop <= |s| && CDataState(s, cdStart, k, normalizedCR, g, before)
    ensures CDataState(s, cdStart, stop, stop > cdStart && s[stop - 1] == XmlChars.CR,
                       CDataGatherLoop(s, k, stop, cdStart, true, normalizedCR, g), before)
    decreases stop - k
  {
    if k < stop {
      CDataStateStep(s, cdStart, k, normalizedCR, g, before);
      CDataGatherLoopState(s, cdStart, k + 1, stop, s[k] == XmlChars.CR,
                           EolGather(s, k, normalizedCR, if s[k] == XmlChars.CR then g.(posStart := cdStart) else g), before);
    }
  }

  /** The side buffer ends with the two `]` the loop copied from the end of the section. */
  lemma DropBrackets(t: Str, before: Str)
    ensures before + XmlChars.EolFold(t + [RBRACKET] + [RBRACKET], false) == (before + XmlChars.NormalizeEol(t)) + [RBRACKET, RBRACKET]
  {
    XmlChars.EolFoldSnoc(t, RBRACKET, false);
    XmlChars.EolFoldSnoc(t + [RBRACKET], RBRACKET, false);
    XmlChars.EolFoldIsNormalizeEol(t);
  }

  /** Taking the two `]` back off leaves the text before the section and the normalised content. */
  lemma CDataEndText(s: Str, cdStart: nat, e: nat, normalizedCR: bool, g1: Gather, before: Str)
    requires cdStart <= e && e + 2 <= |s| && s[e] == RBRACKET && s[e + 1] == RBRACKET
    requires CDataState(s, cdStart, e + 2, normalizedCR, g1, before)
    ensures TextAt(s, CDataEnd(g1, cdStart, e, true), e) == before + XmlChars.NormalizeEol(s[cdStart..e])
  {
    var t := s[cdStart..e];
    if g1.usePC {
      assert s[cdStart..e + 2] == t + [RBRACKET] + [RBRACKET];
      DropBrackets(t, before);
    } else {
      forall x | 0 <= x < |t|
        ensures t[x] != XmlChars.CR
      {
        assert t[x] == s[cdStart + x];
      }
      EolFoldNoCR(t);
    }
  }

  /**
   * When normalising, the text after a CDATA section is the text gathered
   * before it (if it had reached the side buffer) followed by the section's
   * content with its line ends normalised (section 2.11); `]]>` is not part
   * of it.
   */
  lemma CDataGatherText(s: Str, cdStart: nat, e: nat, hadCharData: bool, g: Gather)
    requires g.posStart <= cdStart && g.posEnd <= cdStart <= e && e + 3 <= |s| && GatherOk(g)
    requires hadCharData && !g.usePC ==> g.posStart <= g.posEnd
    requires s[e] == RBRACKET && s[e + 1] == RBRACKET
    ensures var g0 := CDataStart(s, hadCharData, true, g);
      TextAt(s, CDataGather(s, cdStart, e, hadCharData, true, g), e)
        == (if g0.usePC then g0.pc else []) + XmlChars.NormalizeEol(s[cdStart..e])
  {
    var g0 := CDataStart(s, hadCharData, true, g);
    var before := if g0.usePC then g0.pc else [];
    assert CDataState(s, cdStart, cdStart, false, g0, before);
    CDataGatherLoopState(s, cdStart, cdStart, e + 2, false, g0, before);
    CDataEndText(s, cdStart, e, s[e + 1] == XmlChars.CR, CDataGatherLoop(s, cdStart, e + 2, cdStart, true, false, g0), before);
  }

  /** Without normalisation a CDATA section's text is its content as written. */
  lemma CDataGatherRaw(s: Str, cdStart: nat, e: nat, hadCharData: bool, g: Gather)
    requires g.posStart <= cdStart && g.posEnd <= cdStart <= e && e + 3 <= |s| && GatherOk(g) && !g.usePC
    ensures TextAt(s, CDataGather(s, cdStart, e, hadCharData, false, g), e) == s[cdStart..e]
  {
    CDataGatherLoopRaw(s, cdStart, e + 2, cdStart, g);
  }

  lemma {:induction false} CDataGatherLoopRaw(s: Str, k: nat, stop: nat, cdStart: nat, g: Gather)
    requires k <= stop <= |s| && g.posStart <= cdStart <= k && GatherOk(g)
    ensures CDataGatherLoop(s, k, stop, cdStart, false, false, g) == g
    decreases stop - k
  {
    if k < stop {
      CDataGatherLoopRaw(s, k + 1, stop, cdStart, g);
    }
  }

  // ---------------------------------------------------------------------
  // The content loop of `nextImpl` (production [43] content)

  /** How the parser was asked to read: `next()` or `nextToken()`, and the round-trip feature. */
  datatype Mode = Mode(tokenize: bool, roundtrip: bool)

  /** `normalizeInput`: line ends are normalised except for `nextToken()` with round-trip on. */
  predicate Normalize(mode: Mode)
  {
    !mode.tokenize || !mode.roundtrip
  }

  /**
   * What the loop consults: whether namespaces are processed, the entity
   * table (`names`, `replacements`), and the raw name and start line of the
   * innermost open element for an end tag.
   */
  datatype Context = Context(namespaces: bool, names: seq<Str>, replacements: seq<Str>, open: Result<(Str, int), Failure>)

  predicate ContextOk(ctx: Context)
  {
    |ctx.names| <= |ctx.replacements|
  }

  /** What the parser remembers having read ahead for the next call (`seenMarkup`, `seenAmpersand`, `seenStartTag`, `seenEndTag`). */
  datatype Pending = NoneRead | SeenMarkup | SeenAmpersand | SeenStartTag | SeenEndTag

  /** The event one call reports. */
  datatype Event =
    | Text(text: Str)
    | StartTagEvent(tag: StartTag.RawTag)
    | EndTagEvent
    | CDSect(text: Str)
    | CommentEvent
    | PIEvent
    | EntityRef(ref: Reference, replacement: Option<Str>)
    | Docdecl
    | IgnorableWhitespace(text: Str)
    | EndDocument

  /** An event and the read-ahead the parser keeps for the next call. */
  datatype Token = Token(event: Event, pending: Pending)

  /**
   * What one call can report. `next()` reports TEXT only when a tag follows,
   * remembered for the next call, and otherwise START_TAG or END_TAG;
   * `nextToken()` reports TEXT only when markup or a reference follows,
   * remembered likewise, and reports each other event on its own.
   */
  predicate Reported(mode: Mode, t: Token)
  {
    if !mode.tokenize then
      (t.event.Text? && (t.pending == SeenStartTag || t.pending == SeenEndTag))
      || ((t.event.StartTagEvent? || t.event.EndTagEvent?) && t.pending == NoneRead)
    else
      (t.event.Text? && (t.pending == SeenMarkup || t.pending == SeenAmpersand))
      || (!t.event.Text? && t.pending == NoneRead)
  }

  /** The text of the current event: the side buffer, or `buf[posStart..posEnd)`. */
  function EventText(s: Str, g: Gather): Str
    requires g.usePC || g.posStart <= g.posEnd <= |s|
  {
    if g.usePC then g.pc else s[g.posStart..g.posEnd]
  }

  /**
   * What the loop keeps of the gathering state at `p`: both offsets are
   * behind it, and text in the buffer, or about to be merged, is a range.
   * (After a skipped comment `posStart` moves past a stale `posEnd`.)
   */
  predicate LoopBounds(p: nat, hadCharData: bool, needsMerging: bool, g: Gather)
  {
    g.posStart <= p && g.posEnd <= p && GatherOk(g)
    && (hadCharData && !g.usePC ==> g.posStart <= g.posEnd)
    && (needsMerging ==> hadCharData)
  }

  /**
   * The main loop of `nextImpl` with `ch == s[p]` read (`pos == p + 1`):
   * `hadCharData` says text was gathered, `needsMerging` that it is still
   * in the buffer and must move to the side buffer before more is added.
   * `asWritten` selects how an empty CDATA section before any text is left
   * (as the source leaves it, or with `posStart` past the section) and which
   * processing-instruction targets are taken for the XML declaration (every
   * target starting with `xml`, or only `xml` itself).
   */
  function ContentLoop(s: Str, p: nat, mode: Mode, ctx: Context, asWritten: bool,
                       hadCharData: bool, needsMerging: bool, g: Gather): (r: StartTag.Parsed<Token>)
    requires p < |s| && LoopBounds(p, hadCharData, needsMerging, g) && ContextOk(ctx)
    ensures r.Done? ==> p < r.next <= |s|
    ensures r.Done? ==> Reported(mode, r.value)
    decreases |s| - p, 2
  {
    if s[p] == LT then MarkupItem(s, p, mode, ctx, asWritten, hadCharData, needsMerging, g)
    else if s[p] == AMP then ReferenceItem(s, p, mode, ctx, asWritten, hadCharData, needsMerging, g)
    else CharDataItem(s, p, mode, ctx, asWritten, hadCharData, needsMerging, g)
  }

  /** `ch = more()` at the bottom of the loop: the next character, if any, goes round again. */
  function ContinueAt(s: Str, k: nat, mode: Mode, ctx: Context, asWritten: bool,
                      hadCharData: bool, needsMerging: bool, g: Gather): (r: StartTag.Parsed<Token>)
    requires k <= |s| && LoopBounds(k, hadCharData, needsMerging, g) && ContextOk(ctx)
    ensures r.Done? ==> k < r.next <= |s|
    ensures r.Done? ==> Reported(mode, r.value)
    decreases |s| - k, 3
  {
    if k == |s| then StartTag.Stop(Truncated)
    else ContentLoop(s, k, mode, ctx, asWritten, hadCharData, needsMerging, g)
  }

  /** Character data at `p`: merge pending buffer text, then read the run. */
  function CharDataItem(s: Str, p: nat, mode: Mode, ctx: Context, asWritten: bool,
                        hadCharData: bool, needsMerging: bool, g: Gather): (r: StartTag.Parsed<Token>)
    requires p < |s| && LoopBounds(p, hadCharData, needsMerging, g) && ContextOk(ctx)
    ensures r.Done? ==> p < r.next <= |s|
    ensures r.Done? ==> Reported(mode, r.value)
    decreases |s| - p, 0
  {
    if needsMerging && g.posStart > g.posEnd then
      // `joinPC` with a negative length: `arraycopy` refuses the range
      StartTag.Stop(Fault(Copy(Utils.IllegalArgument(g.posStart, g.posEnd))))
    else
      var g1 := if needsMerging then JoinPC(s, g) else g;
      match CharDataLoop(s, p, Normalize(mode), false, false, false, g1)
      case Done(g2, j) => ContentLoop(s, j, mode, ctx, asWritten, true, false, g2)
      case Stop(sc) => StartTag.Stop(sc)
  }

  /**
   * A reference at `p`: in `nextToken()` mode an ENTITY_REF event (after
   * any text); otherwise its replacement is appended to the side buffer,
   * and a name the table does not define is an error.
   */
  function ReferenceItem(s: Str, p: nat, mode: Mode, ctx: Context, asWritten: bool,
                         hadCharData: bool, needsMerging: bool, g: Gather): (r: StartTag.Parsed<Token>)
    requires p < |s| && LoopBounds(p, hadCharData, needsMerging, g) && ContextOk(ctx)
    ensures r.Done? ==> p < r.next <= |s|
    ensures r.Done? ==> Reported(mode, r.value)
    decreases |s| - p, 0
  {
    if mode.tokenize && hadCharData then StartTag.Done(Token(Text(EventText(s, g)), SeenAmpersand), p + 1)
    else
      Markup.ReferenceScanAdvances(s, p + 1);
      match ReferenceScan(s, p + 1)
      case Accept(k) =>
        var ref := ReferenceAt(s, p + 1);
        var replacement := Parser.ResolveReference(ref, ctx.names, ctx.replacements);
        if mode.tokenize then StartTag.Done(Token(EntityRef(ref, replacement), NoneRead), k)
        else if replacement.None? then
          StartTag.Stop(Reject(UnresolvedEntity(if ref.EntityReference? then ref.name else ReferenceText(ref))))
        else AppendReplacement(s, p, k, mode, ctx, asWritten, hadCharData, needsMerging, g, replacement.value)
      case sc => StartTag.Stop(sc)
  }

  /**
   * `next()` after a reference `s[p..k)` resolved to `text`: the text so far
   * moves to the side buffer (nothing is pending to merge afterwards) and
   * the replacement is appended to it.
   */
  function AppendReplacement(s: Str, p: nat, k: nat, mode: Mode, ctx: Context, asWritten: bool,
                             hadCharData: bool, needsMerging: bool, g: Gather, text: Str): (r: StartTag.Parsed<Token>)
    requires p < k <= |s| && LoopBounds(p, hadCharData, needsMerging, g) && ContextOk(ctx)
    ensures r.Done? ==> k < r.next <= |s|
    ensures r.Done? ==> Reported(mode, r.value)
    decreases |s| - k, 4
  {
    var g1 := if g.usePC then g else if hadCharData then JoinPC(s, g) else g.(usePC := true, pc := []);
    var merging := if !g.usePC && hadCharData then false else needsMerging;
    ContinueAt(s, k, mode, ctx, asWritten, true, merging, g1.(pc := g1.pc + text))
  }

  /** The position after `<![CDATA[` at `p`, which is only read once those characters are there. */
  function CDataAt(s: Str, p: nat): (int, int)
    requires p <= |s|
  {
    Track(s, if p + 9 <= |s| then p + 9 else |s|)
  }

  /** Markup at `p` (a `<`): a tag ends the loop, comments and processing instructions are skipped or reported, CDATA is gathered. */
  function MarkupItem(s: Str, p: nat, mode: Mode, ctx: Context, asWritten: bool,
                      hadCharData: bool, needsMerging: bool, g: Gather): (r: StartTag.Parsed<Token>)
    requires p < |s| && s[p] == LT && LoopBounds(p, hadCharData, needsMerging, g) && ContextOk(ctx)
    ensures r.Done? ==> p < r.next <= |s|
    ensures r.Done? ==> Reported(mode, r.value)
    decreases |s| - p, 1
  {
    if mode.tokenize && hadCharData then StartTag.Done(Token(Text(EventText(s, g)), SeenMarkup), p + 1)
    else if p + 1 == |s| then StartTag.Stop(Truncated)
    else
      var c := s[p + 1];
      if c == StartTag.SLASH then
        if !mode.tokenize && hadCharData then StartTag.Done(Token(Text(EventText(s, g)), SeenEndTag), p + 2)
        else
          match EndTagScan(s, p + 2, ctx.open)
          case Accept(k) => StartTag.Done(Token(EndTagEvent, NoneRead), k)
          case sc => StartTag.Stop(sc)
      else if c == BANG then BangItem(s, p, mode, ctx, asWritten, hadCharData, needsMerging, g)
      else if c == Markup.QUESTION then
        var at := Track(s, p + 2);
        match Markup.PIScanAt(s, p + 2, p + 2, false, asWritten, at.0, at.1).scan
        case Accept(k) =>
          if mode.tokenize then StartTag.Done(Token(PIEvent, NoneRead), k)
          else SkipMarkup(s, k, mode, ctx, asWritten, hadCharData, needsMerging, g)
        case sc => StartTag.Stop(sc)
      else if XmlChars.IsNameStartChar(c) then
        if !mode.tokenize && hadCharData then StartTag.Done(Token(Text(EventText(s, g)), SeenStartTag), p + 2)
        else
          match StartTag.StartTagScan(s, p + 1, ctx.namespaces, ctx.names, ctx.replacements)
          case Done(tag, k) => StartTag.Done(Token(StartTagEvent(tag), NoneRead), k)
          case Stop(sc) => StartTag.Stop(sc)
      else StartTag.Stop(Reject(UnexpectedMarkupChar(c)))
  }

  /** Markup that starts `<!`: a comment, a CDATA section, or an error. */
  function BangItem(s: Str, p: nat, mode: Mode, ctx: Context, asWritten: bool,
                    hadCharData: bool, needsMerging: bool, g: Gather): (r: StartTag.Parsed<Token>)
    requires p + 1 < |s| && s[p] == LT && s[p + 1] == BANG && LoopBounds(p, hadCharData, needsMerging, g) && ContextOk(ctx)
    ensures r.Done? ==> p < r.next <= |s|
    ensures r.Done? ==> Reported(mode, r.value)
    decreases |s| - p, 0
  {
    if p + 2 == |s| then StartTag.Stop(Truncated)
    else if s[p + 2] == Markup.DASH then
      var at := Track(s, p + 3);
      match Markup.CommentScan(s, p + 3, at.0, at.1)
      case Accept(k) =>
        if mode.tokenize then StartTag.Done(Token(CommentEvent, NoneRead), k)
        else SkipMarkup(s, k, mode, ctx, asWritten, hadCharData, needsMerging, g)
      case sc => StartTag.Stop(sc)
    else if s[p + 2] == Markup.LBRACKET then
      var at := CDataAt(s, p);
      match Markup.CDSectScan(s, p + 3, at.0, at.1)
      case Accept(k) =>
        Markup.CDSectGrammar(s, p + 3, k, at.0, at.1);
        CDataItem(s, p, k, mode, ctx, asWritten, hadCharData, needsMerging, g)
      case sc => StartTag.Stop(sc)
    else StartTag.Stop(Reject(UnexpectedMarkupChar(s[p + 2])))
  }

  /** A comment or processing instruction in `next()` mode: ignored, and the text around it merged. */
  function SkipMarkup(s: Str, k: nat, mode: Mode, ctx: Context, asWritten: bool,
                      hadCharData: bool, needsMerging: bool, g: Gather): (r: StartTag.Parsed<Token>)
    requires k <= |s| && LoopBounds(k, hadCharData, needsMerging, g) && ContextOk(ctx)
    ensures r.Done? ==> k < r.next <= |s|
    ensures r.Done? ==> Reported(mode, r.value)
    decreases |s| - k, 4
  {
    if !g.usePC && hadCharData then ContinueAt(s, k, mode, ctx, asWritten, hadCharData, true, g)
    else ContinueAt(s, k, mode, ctx, asWritten, hadCharData, needsMerging, g.(posStart := k))
  }

  /**
   * A CDATA section from `p` to `k`, content `s[p + 9..k - 3)`: in
   * `nextToken()` mode a CDSECT event; otherwise its content joins the text.
   * As written, an empty section before any text leaves `posStart` at the
   * section's content, and a pending merge stays pending after the text has
   * moved to the side buffer; corrected, the first skips the section like a
   * comment and the second drops the pending merge.
   */
  function CDataItem(s: Str, p: nat, k: nat, mode: Mode, ctx: Context, asWritten: bool,
                     hadCharData: bool, needsMerging: bool, g: Gather): (r: StartTag.Parsed<Token>)
    requires p + 12 <= k <= |s| && s[k - 3] == RBRACKET && s[k - 2] == RBRACKET
    requires LoopBounds(p, hadCharData, needsMerging, g) && ContextOk(ctx)
    ensures r.Done? ==> p < r.next <= |s|
    ensures r.Done? ==> Reported(mode, r.value)
    decreases |s| - k, 4
  {
    var cdStart := p + 9;
    var g1 := CDataGather(s, cdStart, k - 3, hadCharData, Normalize(mode), g);
    if mode.tokenize then StartTag.Done(Token(CDSect(EventText(s, g1)), NoneRead), k)
    else
      var cdLen := g1.posEnd - g1.posStart;
      var had := if cdLen > 0 then true else hadCharData;
      if asWritten then
        ContinueAt(s, k, mode, ctx, asWritten, had, if cdLen > 0 && !g1.usePC then true else needsMerging, g1)
      else
        ContinueAt(s, k, mode, ctx, asWritten, had, cdLen > 0 && !g1.usePC,
                   if !had then g1.(posStart := k) else g1)
  }

  // ---------------------------------------------------------------------
  // What `next()` coalesces

  /**
   * The text `next()` reports from `p` up to the first tag: character data
   * with its line ends normalised (section 2.11), the content of each CDATA
   * section likewise, and the replacement text of each reference, while
   * comments and processing instructions contribute nothing (production
   * [43] content).
   */
  function ContentText(s: Str, p: nat, ctx: Context): Str
    requires p <= |s| && ContextOk(ctx)
    decreases |s| - p, 1
  {
    if p == |s| then []
    else if s[p] == LT then MarkupContent(s, p, ctx)
    else if s[p] == AMP then ReferenceContent(s, p, ctx)
    else RunContent(s, p, ctx)
  }

  /** A run of character data contributes itself, normalised. */
  function RunContent(s: Str, p: nat, ctx: Context): Str
    requires p < |s| && s[p] != LT && s[p] != AMP && ContextOk(ctx)
    decreases |s| - p, 0
  {
    var j := RunEnd(s, p);
    assert j == RunEnd(s, p + 1);
    XmlChars.NormalizeEol(s[p..j]) + ContentText(s, j, ctx)
  }

  /** A reference contributes its replacement text. */
  function ReferenceContent(s: Str, p: nat, ctx: Context): Str
    requires p < |s| && ContextOk(ctx)
    decreases |s| - p, 0
  {
    Markup.ReferenceScanAdvances(s, p + 1);
    match ReferenceScan(s, p + 1)
    case Accept(k) =>
      (match Parser.ResolveReference(ReferenceAt(s, p + 1), ctx.names, ctx.replacements)
       case Some(text) => text + ContentText(s, k, ctx)
       case None => [])
    case _ => []
  }

  /** Comments and processing instructions contribute nothing, a CDATA section its content, and a tag ends the text. */
  function MarkupContent(s: Str, p: nat, ctx: Context): Str
    requires p < |s| && ContextOk(ctx)
    decreases |s| - p, 0
  {
    if p + 2 < |s| && s[p + 1] == BANG && s[p + 2] == Markup.DASH then
      var at := Track(s, p + 3);
      match Markup.CommentScan(s, p + 3, at.0, at.1)
      case Accept(k) => ContentText(s, k, ctx)
      case _ => []
    else if p + 2 < |s| && s[p + 1] == BANG && s[p + 2] == Markup.LBRACKET then
      var at := CDataAt(s, p);
      match Markup.CDSectScan(s, p + 3, at.0, at.1)
      case Accept(k) =>
        Markup.CDSectGrammar(s, p + 3, k, at.0, at.1);
        XmlChars.NormalizeEol(s[p + 9..k - 3]) + ContentText(s, k, ctx)
      case _ => []
    else if p + 1 < |s| && s[p + 1] == Markup.QUESTION then
      var at := Track(s, p + 2);
      match Markup.PIScanAt(s, p + 2, p + 2, false, false, at.0, at.1).scan
      case Accept(k) => ContentText(s, k, ctx)
      case _ => []
    else []
  }

  /**
   * The gathering state holds the text `t`: nothing yet, or the side
   * buffer, or `buf[posStart..posEnd)`; a pending merge means the text is
   * still in the buffer.
   */
  predicate Gathered(s: Str, hadCharData: bool, needsMerging: bool, g: Gather, t: Str)
  {
    (!hadCharData ==> t == [] && !g.usePC)
    && (needsMerging ==> !g.usePC)
    && (hadCharData && g.usePC ==> g.pc == t)
    && (hadCharData && !g.usePC ==> g.posStart <= g.posEnd <= |s| && s[g.posStart..g.posEnd] == t)
  }

  /** `Gathered` at the top of the loop at `p`: with no text the event starts at `p`, and unmerged text ends there. */
  predicate TextInv(s: Str, p: nat, hadCharData: bool, needsMerging: bool, g: Gather, t: Str)
  {
    LoopBounds(p, hadCharData, needsMerging, g) && Gathered(s, hadCharData, needsMerging, g, t)
    && (!hadCharData ==> g.posStart == p)
    && (hadCharData && !g.usePC && !needsMerging ==> g.posEnd == p)
  }

  /** The text gathered so far is what the loop reports. */
  lemma GatheredText(s: Str, hadCharData: bool, needsMerging: bool, g: Gather, t: Str)
    requires hadCharData && Gathered(s, hadCharData, needsMerging, g, t)
    ensures EventText(s, g) == t
  {
  }

  // One step of `ContentText` each.

  lemma ContentTextRun(s: Str, p: nat, ctx: Context)
    requires p < |s| && s[p] != LT && s[p] != AMP && ContextOk(ctx)
    ensures ContentText(s, p, ctx) == XmlChars.NormalizeEol(s[p..RunEnd(s, p)]) + ContentText(s, RunEnd(s, p), ctx)
  {
  }

  lemma ContentTextReference(s: Str, p: nat, k: nat, ctx: Context, text: Str)
    requires p < |s| && s[p] == AMP && ContextOk(ctx) && k <= |s|
    requires ReferenceScan(s, p + 1) == Accept(k)
    requires Parser.ResolveReference(ReferenceAt(s, p + 1), ctx.names, ctx.replacements) == Some(text)
    ensures ContentText(s, p, ctx) == text + ContentText(s, k, ctx)
  {
  }

  lemma ContentTextComment(s: Str, p: nat, k: nat, ctx: Context)
    requires p + 2 < |s| && s[p] == LT && s[p + 1] == BANG && s[p + 2] == Markup.DASH && ContextOk(ctx) && k <= |s|
    requires Markup.CommentScan(s, p + 3, Track(s, p + 3).0, Track(s, p + 3).1) == Accept(k)
    ensures ContentText(s, p, ctx) == ContentText(s, k, ctx)
  {
  }

  lemma ContentTextPI(s: Str, p: nat, k: nat, ctx: Context)
    requires p + 1 < |s| && s[p] == LT && s[p + 1] == Markup.QUESTION && ContextOk(ctx) && k <= |s|
    requires Markup.PIScanAt(s, p + 2, p + 2, false, false, Track(s, p + 2).0, Track(s, p + 2).1).scan == Accept(k)
    ensures ContentText(s, p, ctx) == ContentText(s, k, ctx)
  {
  }

  lemma ContentTextCData(s: Str, p: nat, k: nat, ctx: Context)
    requires p + 12 <= k <= |s| && s[p] == LT && s[p + 1] == BANG && s[p + 2] == Markup.LBRACKET && ContextOk(ctx)
    requires var at := CDataAt(s, p); Markup.CDSectScan(s, p + 3, at.0, at.1) == Accept(k)
    ensures ContentText(s, p, ctx) == XmlChars.NormalizeEol(s[p + 9..k - 3]) + ContentText(s, k, ctx)
  {
  }

  lemma ContentTextTag(s: Str, p: nat, ctx: Context)
    requires p + 1 < |s| && s[p] == LT && s[p + 1] != BANG && s[p + 1] != Markup.QUESTION && ContextOk(ctx)
    ensures ContentText(s, p, ctx) == []
  {
  }

  /** Before a run of character data the pending merge is done and the gathered text is `TextAt` the run's start. */
  lemma MergedText(s: Str, p: nat, hadCharData: bool, needsMerging: bool, g: Gather, t: Str)
    requires p < |s| && TextInv(s, p, hadCharData, needsMerging, g, t)
    ensures var g1 := if needsMerging then JoinPC(s, g) else g;
      g1.posStart <= p && GatherOk(g1) && TextAt(s, g1, p) == t
  {
  }

  /** After a run ending at `j` the state holds the extended text and no merge is pending. */
  lemma RunTextInv(s: Str, j: nat, g: Gather, u: Str)
    requires j <= |s| && g.posStart <= j && g.posEnd == j && GatherOk(g) && TextAt(s, g, j) == u
    ensures TextInv(s, j, true, false, g, u)
  {
  }

  /**
   * Corrected, `next()` reports as TEXT the text gathered so far followed by
   * `ContentText`: whatever merging of buffer and side buffer the loop does
   * on the way, the result is the coalesced content.
   */
  lemma {:induction false} ContentLoopText(s: Str, p: nat, roundtrip: bool, ctx: Context,
                                           hadCharData: bool, needsMerging: bool, g: Gather, t: Str)
    requires p < |s| && ContextOk(ctx) && TextInv(s, p, hadCharData, needsMerging, g, t)
    ensures var r := ContentLoop(s, p, Mode(false, roundtrip), ctx, false, hadCharData, needsMerging, g);
      r.Done? && r.value.event.Text? ==> r.value.event.text == t + ContentText(s, p, ctx)
    decreases |s| - p, 3
  {
    if s[p] == LT {
      MarkupText(s, p, roundtrip, ctx, hadCharData, needsMerging, g, t);
    } else if s[p] == AMP {
      ReferenceItemText(s, p, roundtrip, ctx, hadCharData, needsMerging, g, t);
    } else {
      CharDataText(s, p, roundtrip, ctx, hadCharData, needsMerging, g, t);
    }
  }

  lemma {:induction false} ContinueText(s: Str, k: nat, roundtrip: bool, ctx: Context,
                                        hadCharData: bool, needsMerging: bool, g: Gather, t: Str)
    requires k <= |s| && ContextOk(ctx) && TextInv(s, k, hadCharData, needsMerging, g, t)
    ensures var r := ContinueAt(s, k, Mode(false, roundtrip), ctx, false, hadCharData, needsMerging, g);
      r.Done? && r.value.event.Text? ==> r.value.event.text == t + ContentText(s, k, ctx)
    decreases |s| - k, 4
  {
    if k < |s| {
      ContentLoopText(s, k, roundtrip, ctx, hadCharData, needsMerging, g, t);
    }
  }

  lemma {:induction false} CharDataText(s: Str, p: nat, roundtrip: bool, ctx: Context,
                                        hadCharData: bool, needsMerging: bool, g: Gather, t: Str)
    requires p < |s| && s[p] != LT && s[p] != AMP && ContextOk(ctx) && TextInv(s, p, hadCharData, needsMerging, g, t)
    ensures var r := CharDataItem(s, p, Mode(false, roundtrip), ctx, false, hadCharData, needsMerging, g);
      r.Done? && r.value.event.Text? ==> r.value.event.text == t + ContentText(s, p, ctx)
    decreases |s| - p, 0
  {
    ContentTextRun(s, p, ctx);
    CharDataRunText(s, p, hadCharData, needsMerging, g, t);
    CharDataItemUnfold(s, p, roundtrip, ctx, hadCharData, needsMerging, g);
    var r := CharDataLoop(s, p, true, false, false, false, if needsMerging then JoinPC(s, g) else g);
    if r.Done? {
      ContentLoopText(s, r.next, roundtrip, ctx, true, false, r.value, t + XmlChars.NormalizeEol(s[p..r.next]));
      AppendAssociates(t, XmlChars.NormalizeEol(s[p..r.next]), ContentText(s, r.next, ctx));
    }
  }

  /** `next()` gathers a run of character data and goes on after it. */
  lemma CharDataItemUnfold(s: Str, p: nat, roundtrip: bool, ctx: Context, hadCharData: bool, needsMerging: bool, g: Gather)
    requires p < |s| && LoopBounds(p, hadCharData, needsMerging, g) && ContextOk(ctx)
    requires needsMerging ==> g.posStart <= g.posEnd
    ensures var r := CharDataLoop(s, p, true, false, false, false, if needsMerging then JoinPC(s, g) else g);
      r.Done? ==> CharDataItem(s, p, Mode(false, roundtrip), ctx, false, hadCharData, needsMerging, g)
                    == ContentLoop(s, r.next, Mode(false, roundtrip), ctx, false, true, false, r.value)
    ensures var r := CharDataLoop(s, p, true, false, false, false, if needsMerging then JoinPC(s, g) else g);
      !r.Done? ==> !CharDataItem(s, p, Mode(false, roundtrip), ctx, false, hadCharData, needsMerging, g).Done?
  {
  }


  /** A run of character data in `next()` mode appends itself, normalised, to the gathered text. */
  lemma CharDataRunText(s: Str, p: nat, hadCharData: bool, needsMerging: bool, g: Gather, t: Str)
    requires p < |s| && s[p] != LT && s[p] != AMP && TextInv(s, p, hadCharData, needsMerging, g, t)
    ensures var r := CharDataLoop(s, p, true, false, false, false, if needsMerging then JoinPC(s, g) else g);
      r.Done? ==> r.next == RunEnd(s, p) && TextInv(s, r.next, true, false, r.value, t + XmlChars.NormalizeEol(s[p..r.next]))
  {
    var g1 := if needsMerging then JoinPC(s, g) else g;
    MergedText(s, p, hadCharData, needsMerging, g, t);
    CharDataGrammar(s, p, true, g1);
    var r := CharDataLoop(s, p, true, false, false, false, g1);
    if r.Done? {
      RunTextInv(s, r.next, r.value, t + XmlChars.NormalizeEol(s[p..r.next]));
    }
  }

  lemma {:induction false} ReferenceItemText(s: Str, p: nat, roundtrip: bool, ctx: Context,
                                             hadCharData: bool, needsMerging: bool, g: Gather, t: Str)
    requires p < |s| && s[p] == AMP && ContextOk(ctx) && TextInv(s, p, hadCharData, needsMerging, g, t)
    ensures var r := ReferenceItem(s, p, Mode(false, roundtrip), ctx, false, hadCharData, needsMerging, g);
      r.Done? && r.value.event.Text? ==> r.value.event.text == t + ContentText(s, p, ctx)
    decreases |s| - p, 1
  {
    ReferenceItemUnfold(s, p, roundtrip, ctx, hadCharData, needsMerging, g);
    if ReferenceItem(s, p, Mode(false, roundtrip), ctx, false, hadCharData, needsMerging, g).Done? {
      ResolvedReferenceText(s, p, roundtrip, ctx, hadCharData, needsMerging, g, t);
    }
  }

  /** A resolved reference contributes its replacement text. */
  lemma {:induction false} ResolvedReferenceText(s: Str, p: nat, roundtrip: bool, ctx: Context,
                                                 hadCharData: bool, needsMerging: bool, g: Gather, t: Str)
    requires p + 1 < |s| && s[p] == AMP && ContextOk(ctx) && TextInv(s, p, hadCharData, needsMerging, g, t)
    requires ReferenceScan(s, p + 1).Accept? && p < ReferenceScan(s, p + 1).next <= |s|
    requires Parser.ResolveReference(ReferenceAt(s, p + 1), ctx.names, ctx.replacements).Some?
    ensures var r := AppendReplacement(s, p, ReferenceScan(s, p + 1).next, Mode(false, roundtrip), ctx, false, hadCharData, needsMerging, g,
                                       Parser.ResolveReference(ReferenceAt(s, p + 1), ctx.names, ctx.replacements).value);
      r.Done? && r.value.event.Text? ==> r.value.event.text == t + ContentText(s, p, ctx)
    decreases |s| - p, 0
  {
    var k := ReferenceScan(s, p + 1).next;
    var text := Parser.ResolveReference(ReferenceAt(s, p + 1), ctx.names, ctx.replacements).value;
    ContentTextReference(s, p, k, ctx, text);
    AppendReplacementText(s, p, k, text, roundtrip, ctx, hadCharData, needsMerging, g, t);
    AppendAssociates(t, text, ContentText(s, k, ctx));
  }

  lemma AppendAssociates(a: Str, b: Str, c: Str)
    ensures a + b + c == a + (b + c)
  {
  }

  /** `next()` goes on after a reference only when it names a replacement text. */
  lemma ReferenceItemUnfold(s: Str, p: nat, roundtrip: bool, ctx: Context, hadCharData: bool, needsMerging: bool, g: Gather)
    requires p < |s| && LoopBounds(p, hadCharData, needsMerging, g) && ContextOk(ctx)
    ensures var r := ReferenceItem(s, p, Mode(false, roundtrip), ctx, false, hadCharData, needsMerging, g);
      r.Done? ==>
        (p + 1 < |s| && ReferenceScan(s, p + 1).Accept? && p < ReferenceScan(s, p + 1).next <= |s|
         && Parser.ResolveReference(ReferenceAt(s, p + 1), ctx.names, ctx.replacements).Some?
         && r == AppendReplacement(s, p, ReferenceScan(s, p + 1).next, Mode(false, roundtrip), ctx, false, hadCharData, needsMerging, g,
                                   Parser.ResolveReference(ReferenceAt(s, p + 1), ctx.names, ctx.replacements).value))
  {
    Markup.ReferenceScanAdvances(s, p + 1);
  }


  lemma {:induction false} AppendReplacementText(s: Str, p: nat, k: nat, text: Str, roundtrip: bool, ctx: Context,
                                                 hadCharData: bool, needsMerging: bool, g: Gather, t: Str)
    requires p < k <= |s| && ContextOk(ctx) && TextInv(s, p, hadCharData, needsMerging, g, t)
    ensures var r := AppendReplacement(s, p, k, Mode(false, roundtrip), ctx, false, hadCharData, needsMerging, g, text);
      r.Done? && r.value.event.Text? ==> r.value.event.text == t + text + ContentText(s, k, ctx)
    decreases |s| - k, 5
  {
    ReferenceTextInv(s, p, k, hadCharData, needsMerging, g, t, text);
    var g1 := if g.usePC then g else if hadCharData then JoinPC(s, g) else g.(usePC := true, pc := []);
    ContinueText(s, k, roundtrip, ctx, true, false, g1.(pc := g1.pc + text), t + text);
  }

  /** A resolved reference moves the gathered text to the side buffer and appends its replacement. */
  lemma ReferenceTextInv(s: Str, p: nat, k: nat, hadCharData: bool, needsMerging: bool, g: Gather, t: Str, text: Str)
    requires p < k <= |s| && TextInv(s, p, hadCharData, needsMerging, g, t)
    ensures var g1 := if g.usePC then g else if hadCharData then JoinPC(s, g) else g.(usePC := true, pc := []);
      (if !g.usePC && hadCharData then false else needsMerging) == false
      && TextInv(s, k, true, false, g1.(pc := g1.pc + text), t + text)
  {
  }

  lemma {:induction false} MarkupText(s: Str, p: nat, roundtrip: bool, ctx: Context,
                                      hadCharData: bool, needsMerging: bool, g: Gather, t: Str)
    requires p < |s| && s[p] == LT && ContextOk(ctx) && TextInv(s, p, hadCharData, needsMerging, g, t)
    ensures var r := MarkupItem(s, p, Mode(false, roundtrip), ctx, false, hadCharData, needsMerging, g);
      r.Done? && r.value.event.Text? ==> r.value.event.text == t + ContentText(s, p, ctx)
    decreases |s| - p, 2
  {
    if p + 1 < |s| {
      var c := s[p + 1];
      if c == BANG {
        BangText(s, p, roundtrip, ctx, hadCharData, needsMerging, g, t);
      } else if c == Markup.QUESTION {
        var at := Track(s, p + 2);
        var sc := Markup.PIScanAt(s, p + 2, p + 2, false, false, at.0, at.1).scan;
        if sc.Accept? {
          SkipText(s, p, sc.next, roundtrip, ctx, hadCharData, needsMerging, g, t);
          ContentTextPI(s, p, sc.next, ctx);
        }
      } else if hadCharData {
        GatheredText(s, hadCharData, needsMerging, g, t);
        ContentTextTag(s, p, ctx);
      }
    }
  }

  lemma {:induction false} BangText(s: Str, p: nat, roundtrip: bool, ctx: Context,
                                    hadCharData: bool, needsMerging: bool, g: Gather, t: Str)
    requires p + 1 < |s| && s[p] == LT && s[p + 1] == BANG && ContextOk(ctx) && TextInv(s, p, hadCharData, needsMerging, g, t)
    ensures var r := BangItem(s, p, Mode(false, roundtrip), ctx, false, hadCharData, needsMerging, g);
      r.Done? && r.value.event.Text? ==> r.value.event.text == t + ContentText(s, p, ctx)
    decreases |s| - p, 1
  {
    if p + 2 < |s| && s[p + 2] == Markup.DASH {
      var at := Track(s, p + 3);
      var sc := Markup.CommentScan(s, p + 3, at.0, at.1);
      if sc.Accept? {
        BangCommentText(s, p, sc.next, roundtrip, ctx, hadCharData, needsMerging, g, t);
      }
    } else if p + 2 < |s| && s[p + 2] == Markup.LBRACKET {
      var at := CDataAt(s, p);
      var sc := Markup.CDSectScan(s, p + 3, at.0, at.1);
      if sc.Accept? {
        BangCDataText(s, p, sc.next, roundtrip, ctx, hadCharData, needsMerging, g, t);
      }
    }
  }

  lemma {:induction false} BangCommentText(s: Str, p: nat, k: nat, roundtrip: bool, ctx: Context,
                                           hadCharData: bool, needsMerging: bool, g: Gather, t: Str)
    requires p + 2 < |s| && s[p] == LT && s[p + 1] == BANG && s[p + 2] == Markup.DASH
    requires ContextOk(ctx) && TextInv(s, p, hadCharData, needsMerging, g, t)
    requires Markup.CommentScan(s, p + 3, Track(s, p + 3).0, Track(s, p + 3).1) == Accept(k)
    ensures p < k <= |s|
    ensures var r := BangItem(s, p, Mode(false, roundtrip), ctx, false, hadCharData, needsMerging, g);
      r.Done? && r.value.event.Text? ==> r.value.event.text == t + ContentText(s, p, ctx)
    decreases |s| - p, 0
  {
    BangCommentUnfold(s, p, k, Mode(false, roundtrip), ctx, false, hadCharData, needsMerging, g);
    SkipText(s, p, k, roundtrip, ctx, hadCharData, needsMerging, g, t);
    ContentTextComment(s, p, k, ctx);
  }

  /** Outside `nextToken()` a comment at `p` ending at `k` is skipped. */
  lemma BangCommentUnfold(s: Str, p: nat, k: nat, mode: Mode, ctx: Context, asWritten: bool,
                          hadCharData: bool, needsMerging: bool, g: Gather)
    requires p + 2 < |s| && s[p] == LT && s[p + 1] == BANG && s[p + 2] == Markup.DASH && !mode.tokenize
    requires LoopBounds(p, hadCharData, needsMerging, g) && ContextOk(ctx)
    requires Markup.CommentScan(s, p + 3, Track(s, p + 3).0, Track(s, p + 3).1) == Accept(k)
    ensures p < k <= |s| && LoopBounds(k, hadCharData, needsMerging, g)
    ensures BangItem(s, p, mode, ctx, asWritten, hadCharData, needsMerging, g)
      == SkipMarkup(s, k, mode, ctx, asWritten, hadCharData, needsMerging, g)
  {
  }

  /** A CDATA section at `p` ending at `k` is gathered by `CDataItem`. */
  lemma BangCDataUnfold(s: Str, p: nat, k: nat, mode: Mode, ctx: Context, asWritten: bool,
                        hadCharData: bool, needsMerging: bool, g: Gather)
    requires p + 2 < |s| && s[p] == LT && s[p + 1] == BANG && s[p + 2] == Markup.LBRACKET
    requires LoopBounds(p, hadCharData, needsMerging, g) && ContextOk(ctx)
    requires Markup.CDSectScan(s, p + 3, CDataAt(s, p).0, CDataAt(s, p).1) == Accept(k)
    ensures p + 12 <= k <= |s| && s[k - 3] == RBRACKET && s[k - 2] == RBRACKET
    ensures BangItem(s, p, mode, ctx, asWritten, hadCharData, needsMerging, g)
      == CDataItem(s, p, k, mode, ctx, asWritten, hadCharData, needsMerging, g)
  {
    Markup.CDSectGrammar(s, p + 3, k, CDataAt(s, p).0, CDataAt(s, p).1);
  }

  lemma {:induction false} BangCDataText(s: Str, p: nat, k: nat, roundtrip: bool, ctx: Context,
                                         hadCharData: bool, needsMerging: bool, g: Gather, t: Str)
    requires p + 2 < |s| && s[p] == LT && s[p + 1] == BANG && s[p + 2] == Markup.LBRACKET
    requires ContextOk(ctx) && TextInv(s, p, hadCharData, needsMerging, g, t)
    requires var at := CDataAt(s, p); Markup.CDSectScan(s, p + 3, at.0, at.1) == Accept(k)
    ensures var r := BangItem(s, p, Mode(false, roundtrip), ctx, false, hadCharData, needsMerging, g);
      r.Done? && r.value.event.Text? ==> r.value.event.text == t + ContentText(s, p, ctx)
    decreases |s| - p, 0
  {
    BangCDataUnfold(s, p, k, Mode(false, roundtrip), ctx, false, hadCharData, needsMerging, g);
    ContentTextCData(s, p, k, ctx);
    CDataText(s, p, k, roundtrip, ctx, hadCharData, needsMerging, g, t);
    AppendAssociates(t, XmlChars.NormalizeEol(s[p + 9..k - 3]), ContentText(s, k, ctx));
  }

  lemma {:induction false} SkipText(s: Str, p: nat, k: nat, roundtrip: bool, ctx: Context,
                                    hadCharData: bool, needsMerging: bool, g: Gather, t: Str)
    requires p < k <= |s| && ContextOk(ctx) && TextInv(s, p, hadCharData, needsMerging, g, t)
    ensures var r := SkipMarkup(s, k, Mode(false, roundtrip), ctx, false, hadCharData, needsMerging, g);
      r.Done? && r.value.event.Text? ==> r.value.event.text == t + ContentText(s, k, ctx)
    decreases |s| - k, 5
  {
    if !g.usePC && hadCharData {
      ContinueText(s, k, roundtrip, ctx, hadCharData, true, g, t);
    } else {
      ContinueText(s, k, roundtrip, ctx, hadCharData, needsMerging, g.(posStart := k), t);
    }
  }

  lemma {:induction false} CDataText(s: Str, p: nat, k: nat, roundtrip: bool, ctx: Context,
                                     hadCharData: bool, needsMerging: bool, g: Gather, t: Str)
    requires p + 12 <= k <= |s| && s[k - 3] == RBRACKET && s[k - 2] == RBRACKET
    requires ContextOk(ctx) && TextInv(s, p, hadCharData, needsMerging, g, t)
    ensures var r := CDataItem(s, p, k, Mode(false, roundtrip), ctx, false, hadCharData, needsMerging, g);
      r.Done? && r.value.event.Text? ==> r.value.event.text == t + XmlChars.NormalizeEol(s[p + 9..k - 3]) + ContentText(s, k, ctx)
    decreases |s| - k, 5
  {
    var g1 := CDataGather(s, p + 9, k - 3, hadCharData, true, g);
    var cdLen := g1.posEnd - g1.posStart;
    var had := if cdLen > 0 then true else hadCharData;
    CDataNextState(s, p, k, hadCharData, needsMerging, g, t);
    CDataItemUnfold(s, p, k, roundtrip, ctx, hadCharData, needsMerging, g);
    ContinueText(s, k, roundtrip, ctx, had, cdLen > 0 && !g1.usePC,
                 if !had then g1.(posStart := k) else g1, t + XmlChars.NormalizeEol(s[p + 9..k - 3]));
  }

  /** Corrected, `next()` goes on after a CDATA section with the state `CDataNextState` describes. */
  lemma CDataItemUnfold(s: Str, p: nat, k: nat, roundtrip: bool, ctx: Context, hadCharData: bool, needsMerging: bool, g: Gather)
    requires p + 12 <= k <= |s| && s[k - 3] == RBRACKET && s[k - 2] == RBRACKET
    requires LoopBounds(p, hadCharData, needsMerging, g) && ContextOk(ctx)
    ensures var g1 := CDataGather(s, p + 9, k - 3, hadCharData, true, g);
      var cdLen := g1.posEnd - g1.posStart;
      var had := if cdLen > 0 then true else hadCharData;
      CDataItem(s, p, k, Mode(false, roundtrip), ctx, false, hadCharData, needsMerging, g)
        == ContinueAt(s, k, Mode(false, roundtrip), ctx, false, had, cdLen > 0 && !g1.usePC, if !had then g1.(posStart := k) else g1)
  {
  }


  /**
   * After a CDATA section in `next()` mode the gathered text has grown by
   * its content, and a merge is pending only when that content is still in
   * the buffer.
   */
  lemma CDataNextState(s: Str, p: nat, k: nat, hadCharData: bool, needsMerging: bool, g: Gather, t: Str)
    requires p + 12 <= k <= |s| && s[k - 3] == RBRACKET && s[k - 2] == RBRACKET
    requires TextInv(s, p, hadCharData, needsMerging, g, t)
    ensures var g1 := CDataGather(s, p + 9, k - 3, hadCharData, true, g);
      var cdLen := g1.posEnd - g1.posStart;
      var had := if cdLen > 0 then true else hadCharData;
      TextInv(s, k, had, cdLen > 0 && !g1.usePC, if !had then g1.(posStart := k) else g1,
              t + XmlChars.NormalizeEol(s[p + 9..k - 3]))
  {
    var cdStart := p + 9;
    var e := k - 3;
    CDataGatheredText(s, p, k, hadCharData, needsMerging, g, t);
    var g1 := CDataGather(s, cdStart, e, hadCharData, true, g);
    CDataEmptyContent(s, cdStart, e, hadCharData, g);
    CDataAfterState(s, cdStart, e, k, hadCharData, g1, t + XmlChars.NormalizeEol(s[cdStart..e]));
  }

  /** The loop state after a CDATA section `s[cdStart..e)` that ends at `k`. */
  lemma CDataAfterState(s: Str, cdStart: nat, e: nat, k: nat, hadCharData: bool, g1: Gather, u: Str)
    requires cdStart <= e <= k <= |s| && g1.posStart == cdStart && g1.posEnd == e && GatherOk(g1)
    requires TextAt(s, g1, e) == u
    requires e == cdStart ==> (g1.usePC <==> hadCharData) && (!hadCharData ==> u == [])
    ensures var cdLen := g1.posEnd - g1.posStart;
      var had := if cdLen > 0 then true else hadCharData;
      TextInv(s, k, had, cdLen > 0 && !g1.usePC, if !had then g1.(posStart := k) else g1, u)
  {
    if e == cdStart {
      CDataEmptyState(s, k, hadCharData, g1, u);
    } else {
      CDataFilledState(s, cdStart, e, k, g1, u);
    }
  }

  /** An empty section `]]>` has no `\r` to gather, so it moves nothing to the side buffer. */
  lemma CDataEmptyContent(s: Str, cdStart: nat, e: nat, hadCharData: bool, g: Gather)
    requires g.posStart <= cdStart && g.posEnd <= cdStart <= e && e + 3 <= |s| && GatherOk(g)
    requires hadCharData && !g.usePC ==> g.posStart <= g.posEnd
    requires s[e] == RBRACKET && s[e + 1] == RBRACKET
    ensures e == cdStart ==> XmlChars.NormalizeEol(s[cdStart..e]) == []
    ensures e == cdStart && !hadCharData && !g.usePC ==> !CDataGather(s, cdStart, e, hadCharData, true, g).usePC
  {
    if e == cdStart {
      assert NoCR(s, cdStart, e + 2);
      assert s[cdStart..e] == [];
    }
  }

  /** In `next()` mode the side buffer after a section holds the text gathered before it and its content. */
  lemma CDataGatheredText(s: Str, p: nat, k: nat, hadCharData: bool, needsMerging: bool, g: Gather, t: Str)
    requires p + 12 <= k <= |s| && s[k - 3] == RBRACKET && s[k - 2] == RBRACKET
    requires TextInv(s, p, hadCharData, needsMerging, g, t)
    ensures var g1 := CDataGather(s, p + 9, k - 3, hadCharData, true, g);
      TextAt(s, g1, k - 3) == t + XmlChars.NormalizeEol(s[p + 9..k - 3]) && (hadCharData ==> g1.usePC)
  {
    CDataStartText(s, p, hadCharData, needsMerging, g, t);
    CDataGatherText(s, p + 9, k - 3, hadCharData, g);
  }

  /** What `parseCDSect` starts from holds the text gathered before, and is the side buffer exactly when there was text. */
  lemma CDataStartText(s: Str, p: nat, hadCharData: bool, needsMerging: bool, g: Gather, t: Str)
    requires p <= |s| && TextInv(s, p, hadCharData, needsMerging, g, t)
    ensures var g0 := CDataStart(s, hadCharData, true, g);
      (if g0.usePC then g0.pc else []) == t && (g0.usePC <==> hadCharData)
  {
  }

  /** An empty section leaves the state as it was, the event's start moved past it when there is no text. */
  lemma CDataEmptyState(s: Str, k: nat, hadCharData: bool, g1: Gather, u: Str)
    requires k <= |s| && g1.posStart == g1.posEnd <= k && GatherOk(g1)
    requires (g1.usePC <==> hadCharData) && (!hadCharData ==> u == [])
    requires TextAt(s, g1, g1.posEnd) == u
    ensures TextInv(s, k, hadCharData, false, if !hadCharData then g1.(posStart := k) else g1, u)
  {
  }

  /** A section with content holds the text gathered so far followed by it. */
  lemma CDataFilledState(s: Str, cdStart: nat, e: nat, k: nat, g1: Gather, u: Str)
    requires cdStart < e <= k <= |s| && g1.posStart == cdStart && g1.posEnd == e && GatherOk(g1)
    requires TextAt(s, g1, e) == u
    ensures TextInv(s, k, true, !g1.usePC, g1, u)
  {
  }


  // ---------------------------------------------------------------------
  // What `next()` reports as written

  /** A document whose element holds an empty CDATA section and then `x`. */
  const EMPTY_CDATA: Str := Lit("<a><![CDATA[]]>x</a>")

  lemma EmptyCDataChars()
    ensures |EMPTY_CDATA| == 20 && EMPTY_CDATA[3] == LT && EMPTY_CDATA[4] == BANG && EMPTY_CDATA[5] == Markup.LBRACKET
    ensures EMPTY_CDATA[12] == RBRACKET && EMPTY_CDATA[13] == RBRACKET && EMPTY_CDATA[14] == Scans.GT
    ensures EMPTY_CDATA[15] == 'x' as int && EMPTY_CDATA[16] == LT && EMPTY_CDATA[17] == StartTag.SLASH
  {
  }

  lemma EmptyCDataTexts()
    ensures EMPTY_CDATA[12..16] == Lit("]]>x") && EMPTY_CDATA[15..16] == Lit("x")
  {
    assert EMPTY_CDATA[12..16] == Lit("]]>x");
  }

  lemma EmptyCDataScan(line: int, column: int)
    ensures Markup.CDSectScan(EMPTY_CDATA, 6, line, column) == Accept(15)
  {
    assert EMPTY_CDATA[6..12] == Markup.CDATA_OPEN;
    Markup.CDSectGrammar(EMPTY_CDATA, 6, 15, line, column);
  }

  lemma EmptyCDataSection(ctx: Context, asWritten: bool)
    requires ContextOk(ctx)
    ensures ContentLoop(EMPTY_CDATA, 3, Mode(false, false), ctx, asWritten, false, false, Gather(3, 3, false, []))
      == CDataItem(EMPTY_CDATA, 3, 15, Mode(false, false), ctx, asWritten, false, false, Gather(3, 3, false, []))
  {
    var s := EMPTY_CDATA;
    var g := Gather(3, 3, false, []);
    EmptyCDataChars();
    var at := CDataAt(s, 3);
    EmptyCDataScan(at.0, at.1);
    BangReached(s, 3, ctx, asWritten, false, false, g);
  }

  lemma EmptyCDataItem(ctx: Context, asWritten: bool)
    requires ContextOk(ctx)
    ensures CDataItem(EMPTY_CDATA, 3, 15, Mode(false, false), ctx, asWritten, false, false, Gather(3, 3, false, []))
      == ContentLoop(EMPTY_CDATA, 15, Mode(false, false), ctx, asWritten, false, false, Gather(if asWritten then 12 else 15, 12, false, []))
  {
    EmptyCDataChars();
    EmptyCDataGathered();
  }

  lemma EmptyCDataGathered()
    ensures CDataGather(EMPTY_CDATA, 12, 12, false, true, Gather(3, 3, false, [])) == Gather(12, 12, false, [])
  {
  }

  lemma EmptyCDataThenText(ctx: Context, asWritten: bool, start: nat)
    requires ContextOk(ctx) && start <= 15
    ensures ContentLoop(EMPTY_CDATA, 15, Mode(false, false), ctx, asWritten, false, false, Gather(start, 12, false, []))
      == StartTag.Done(Token(Text(EMPTY_CDATA[start..16]), SeenEndTag), 18)
  {
    var s := EMPTY_CDATA;
    var g := Gather(start, 12, false, []);
    EmptyCDataChars();
    assert CharDataLoop(s, 15, true, false, false, false, g) == StartTag.Done(g.(posEnd := 16), 16);
  }

  /**
   * An empty CDATA section before any text leaves the event's start at the
   * section's content: as written, `next()` on `<a><![CDATA[]]>x</a>`
   * reports `]]>x` where the corrected loop reports `x`.
   */
  lemma EmptyCDataLeaksAsWritten(ctx: Context)
    requires ContextOk(ctx)
    ensures ContentLoop(EMPTY_CDATA, 3, Mode(false, false), ctx, true, false, false, Gather(3, 3, false, []))
      == StartTag.Done(Token(Text(Lit("]]>x")), SeenEndTag), 18)
    ensures ContentLoop(EMPTY_CDATA, 3, Mode(false, false), ctx, false, false, false, Gather(3, 3, false, []))
      == StartTag.Done(Token(Text(Lit("x")), SeenEndTag), 18)
  {
    EmptyCDataSection(ctx, true);
    EmptyCDataSection(ctx, false);
    EmptyCDataItem(ctx, true);
    EmptyCDataItem(ctx, false);
    EmptyCDataThenText(ctx, true, 12);
    EmptyCDataThenText(ctx, false, 15);
    EmptyCDataTexts();
  }

  /** A document whose element holds text, a comment, a CDATA section and more text. */
  const TEXT_COMMENT_CDATA: Str := Lit("<a>x<!--c--><![CDATA[y]]>z</a>")

  lemma TextCommentCDataChars()
    ensures |TEXT_COMMENT_CDATA| == 30
    ensures TEXT_COMMENT_CDATA[3] == 'x' as int && TEXT_COMMENT_CDATA[4] == LT && TEXT_COMMENT_CDATA[5] == BANG
    ensures TEXT_COMMENT_CDATA[6] == Markup.DASH && TEXT_COMMENT_CDATA[12] == LT && TEXT_COMMENT_CDATA[13] == BANG
    ensures TEXT_COMMENT_CDATA[14] == Markup.LBRACKET && TEXT_COMMENT_CDATA[21] == 'y' as int
    ensures TEXT_COMMENT_CDATA[22] == RBRACKET && TEXT_COMMENT_CDATA[23] == RBRACKET && TEXT_COMMENT_CDATA[24] == Scans.GT
    ensures TEXT_COMMENT_CDATA[25] == 'z' as int && TEXT_COMMENT_CDATA[26] == LT && TEXT_COMMENT_CDATA[27] == StartTag.SLASH
    ensures TEXT_COMMENT_CDATA[3..4] == Lit("x") && TEXT_COMMENT_CDATA[21..22] == Lit("y")
  {
    assert TEXT_COMMENT_CDATA[21..22] == Lit("y");
  }

  lemma TextCommentCDataCommentScan(line: int, column: int)
    ensures Markup.CommentScan(TEXT_COMMENT_CDATA, 7, line, column) == Accept(12)
  {
    var s := TEXT_COMMENT_CDATA;
    TextCommentCDataChars();
    assert s[7] == Markup.DASH && s[8] == 'c' as int && s[9] == Markup.DASH && s[10] == Markup.DASH && s[11] == Scans.GT;
    assert Markup.BmpIn(s, 7, 12);
    assert Markup.CommentBody(s, 8, 9);
    Markup.CommentGrammar(s, 7, 12, line, column);
  }

  lemma TextCommentCDataSectionScan(line: int, column: int)
    ensures Markup.CDSectScan(TEXT_COMMENT_CDATA, 15, line, column) == Accept(25)
  {
    var s := TEXT_COMMENT_CDATA;
    TextCommentCDataChars();
    assert s[15..21] == Markup.CDATA_OPEN;
    Markup.CDSectGrammar(s, 15, 25, line, column);
  }

  /** `next()` reaches the `<!` at `p` through `MarkupItem`. */
  lemma BangReached(s: Str, p: nat, ctx: Context, asWritten: bool, hadCharData: bool, needsMerging: bool, g: Gather)
    requires p + 1 < |s| && s[p] == LT && s[p + 1] == BANG && LoopBounds(p, hadCharData, needsMerging, g) && ContextOk(ctx)
    ensures ContentLoop(s, p, Mode(false, false), ctx, asWritten, hadCharData, needsMerging, g)
      == BangItem(s, p, Mode(false, false), ctx, asWritten, hadCharData, needsMerging, g)
  {
    assert ContentLoop(s, p, Mode(false, false), ctx, asWritten, hadCharData, needsMerging, g)
      == MarkupItem(s, p, Mode(false, false), ctx, asWritten, hadCharData, needsMerging, g);
  }

  lemma TextCommentCDataFirstRun(ctx: Context, asWritten: bool)
    requires ContextOk(ctx)
    ensures ContentLoop(TEXT_COMMENT_CDATA, 3, Mode(false, false), ctx, asWritten, false, false, Gather(3, 3, false, []))
      == ContentLoop(TEXT_COMMENT_CDATA, 4, Mode(false, false), ctx, asWritten, true, false, Gather(3, 4, false, []))
  {
    TextCommentCDataChars();
    var g := Gather(3, 3, false, []);
    assert CharDataLoop(TEXT_COMMENT_CDATA, 3, true, false, false, false, g) == StartTag.Done(g.(posEnd := 4), 4);
  }

  lemma TextCommentCDataComment(ctx: Context, asWritten: bool)
    requires ContextOk(ctx)
    ensures ContentLoop(TEXT_COMMENT_CDATA, 4, Mode(false, false), ctx, asWritten, true, false, Gather(3, 4, false, []))
      == ContentLoop(TEXT_COMMENT_CDATA, 12, Mode(false, false), ctx, asWritten, true, true, Gather(3, 4, false, []))
  {
    var s := TEXT_COMMENT_CDATA;
    var g := Gather(3, 4, false, []);
    TextCommentCDataChars();
    BangReached(s, 4, ctx, asWritten, true, false, g);
    var at := Track(s, 7);
    TextCommentCDataCommentScan(at.0, at.1);
  }

  lemma TextCommentCDataSection(ctx: Context, asWritten: bool)
    requires ContextOk(ctx)
    ensures ContentLoop(TEXT_COMMENT_CDATA, 12, Mode(false, false), ctx, asWritten, true, true, Gather(3, 4, false, []))
      == CDataItem(TEXT_COMMENT_CDATA, 12, 25, Mode(false, false), ctx, asWritten, true, true, Gather(3, 4, false, []))
  {
    var s := TEXT_COMMENT_CDATA;
    var g := Gather(3, 4, false, []);
    TextCommentCDataChars();
    BangReached(s, 12, ctx, asWritten, true, true, g);
    var at := CDataAt(s, 12);
    TextCommentCDataSectionScan(at.0, at.1);
  }

  lemma TextCommentCDataGathered()
    ensures CDataGather(TEXT_COMMENT_CDATA, 21, 22, true, true, Gather(3, 4, false, [])) == Gather(21, 22, true, Lit("xy"))
  {
    var s := TEXT_COMMENT_CDATA;
    TextCommentCDataChars();
    var g0 := Gather(3, 4, true, Lit("x"));
    assert CDataStart(s, true, true, Gather(3, 4, false, [])) == g0;
    var rest := CDataGatherLoop(s, 22, 24, 21, true, false, g0.(pc := Lit("xy")));
    assert rest == g0.(pc := Lit("xy") + [RBRACKET, RBRACKET]);
    assert CDataGatherLoop(s, 21, 24, 21, true, false, g0) == rest;
    assert (Lit("xy") + [RBRACKET, RBRACKET])[..2] == Lit("xy");
  }

  lemma TextCommentCDataItem(ctx: Context, asWritten: bool)
    requires ContextOk(ctx)
    ensures CDataItem(TEXT_COMMENT_CDATA, 12, 25, Mode(false, false), ctx, asWritten, true, true, Gather(3, 4, false, []))
      == ContentLoop(TEXT_COMMENT_CDATA, 25, Mode(false, false), ctx, asWritten, true, asWritten, Gather(21, 22, true, Lit("xy")))
  {
    TextCommentCDataChars();
    TextCommentCDataGathered();
  }

  lemma TextCommentCDataLastRun(ctx: Context, asWritten: bool)
    requires ContextOk(ctx)
    ensures var g := Gather(21, 22, true, Lit("xy"));
      ContentLoop(TEXT_COMMENT_CDATA, 25, Mode(false, false), ctx, asWritten, true, asWritten, g)
        == StartTag.Done(Token(Text((if asWritten then Lit("xyy") else Lit("xy")) + ['z' as int]), SeenEndTag), 28)
  {
    var s := TEXT_COMMENT_CDATA;
    TextCommentCDataChars();
    var g := Gather(21, 22, true, Lit("xy"));
    var g1 := if asWritten then JoinPC(s, g) else g;
    assert g1.pc == if asWritten then Lit("xyy") else Lit("xy");
    var g2 := g1.(pc := g1.pc + ['z' as int], posEnd := 26);
    assert CharDataLoop(s, 25, true, false, false, false, g1) == StartTag.Done(g2, 26);
  }

  lemma TextCommentCDataTexts()
    ensures Lit("xyy") + ['z' as int] == Lit("xyyz") && Lit("xy") + ['z' as int] == Lit("xyz")
  {
    assert Lit("xyy") + ['z' as int] == Lit("xyyz");
    assert Lit("xy") + ['z' as int] == Lit("xyz");
  }

  lemma TextCommentCDataWhole(ctx: Context, asWritten: bool)
    requires ContextOk(ctx)
    ensures ContentLoop(TEXT_COMMENT_CDATA, 3, Mode(false, false), ctx, asWritten, false, false, Gather(3, 3, false, []))
      == StartTag.Done(Token(Text((if asWritten then Lit("xyy") else Lit("xy")) + ['z' as int]), SeenEndTag), 28)
  {
    TextCommentCDataFirstRun(ctx, asWritten);
    TextCommentCDataComment(ctx, asWritten);
    TextCommentCDataSection(ctx, asWritten);
    TextCommentCDataItem(ctx, asWritten);
    TextCommentCDataLastRun(ctx, asWritten);
  }

  /**
   * Text, then a comment, then a CDATA section: the comment leaves a merge
   * pending, the section moves the text to the side buffer but the pending
   * merge survives, so the next run of text appends the section's content
   * a second time. As written `next()` on `<a>x<!--c--><![CDATA[y]]>z</a>`
   * reports `xyyz`; the corrected loop reports `xyz`.
   */
  lemma CDataAfterCommentDuplicatedAsWritten(ctx: Context)
    requires ContextOk(ctx)
    ensures ContentLoop(TEXT_COMMENT_CDATA, 3, Mode(false, false), ctx, true, false, false, Gather(3, 3, false, []))
      == StartTag.Done(Token(Text(Lit("xyyz")), SeenEndTag), 28)
    ensures ContentLoop(TEXT_COMMENT_CDATA, 3, Mode(false, false), ctx, false, false, false, Gather(3, 3, false, []))
      == StartTag.Done(Token(Text(Lit("xyz")), SeenEndTag), 28)
  {
    TextCommentCDataWhole(ctx, true);
    TextCommentCDataWhole(ctx, false);
    TextCommentCDataTexts();
  }

  // ---------------------------------------------------------------------
  // The prolog and the epilog (`parseProlog`, `parseEpilog`; productions
  // [1] document, [22] prolog and [27] Misc)

  const BOM: CodeUnit := 0xFEFF
  const NONCHARACTER_FFFE: CodeUnit := 0xFFFE
  const REPLACEMENT_CHAR: CodeUnit := 0xFFFD
  const DOCTYPE_D: CodeUnit := 'D' as int

  /** The characters `parseProlog` looks at before the first event: U+FFFE, U+FEFF and U+FFFD. */
  predicate MarkAtStart(ch: CodeUnit)
  {
    ch == NONCHARACTER_FFFE || ch == BOM || ch == REPLACEMENT_CHAR
  }

  /** `normalizeIgnorableWS`: white space outside the root is normalised only for `nextToken()` without round-trip. */
  predicate NormalizeIgnorable(mode: Mode)
  {
    mode.tokenize && !mode.roundtrip
  }

  /** What a call in the prolog reports, and whether a document type declaration has been read (`seenDocdecl`). */
  datatype PrologStep = PrologStep(token: Token, seenDocdecl: bool)

  /** What a call in the epilog reports, and whether the end of the input was reached (`reachedEnd`). */
  datatype EpilogStep = EpilogStep(token: Token, reachedEnd: bool)

  /**
   * What one call in the prolog can report: `next()` reports only the
   * root's START_TAG; `nextToken()` also reports each comment, processing
   * instruction and document type declaration on its own, and the white
   * space before the next markup, whose `<` it remembers having read.
   */
  predicate PrologReported(mode: Mode, t: Token)
  {
    if !mode.tokenize then t.event.StartTagEvent? && t.pending == NoneRead
    else if t.event.IgnorableWhitespace? then t.pending == SeenMarkup
    else (t.event.StartTagEvent? || t.event == CommentEvent || t.event == PIEvent || t.event == Docdecl) && t.pending == NoneRead
  }

  /**
   * What one call in the epilog can report: `next()` reports only
   * END_DOCUMENT, once the input is exhausted; `nextToken()` also reports
   * comments, processing instructions, document type declarations and
   * white space, the last white space at the end of the input, after which
   * only END_DOCUMENT is left. Never a tag and never text.
   */
  predicate EpilogReported(mode: Mode, e: EpilogStep)
  {
    var t := e.token;
    if !mode.tokenize then t == Token(EndDocument, NoneRead) && e.reachedEnd
    else
      (t.event.IgnorableWhitespace? && t.pending == SeenMarkup && !e.reachedEnd)
      || (t.event.IgnorableWhitespace? && t.pending == NoneRead && e.reachedEnd)
      || ((t.event == CommentEvent || t.event == PIEvent || t.event == Docdecl) && t.pending == NoneRead && !e.reachedEnd)
      || (t.event == EndDocument && t.pending == NoneRead && e.reachedEnd)
  }

  /**
   * `parseProlog` from `s[p]`: the `<` the previous call read ahead, or the
   * next character of the input. Before the first event (`first`) U+FFFE is
   * refused (the input needs its bytes swapped), a byte order mark U+FEFF
   * is skipped, and so is a U+FFFD unless a second one follows it (a UTF-16
   * byte order mark decoded as UTF-8). The text of white space starts
   * after what was skipped.
   */
  function PrologStart(s: Str, p: nat, mode: Mode, ctx: Context, first: bool, seenDocdecl: bool): (r: StartTag.Parsed<PrologStep>)
    requires p <= |s| && ContextOk(ctx)
    ensures r.Done? ==> p < r.next <= |s| && PrologReported(mode, r.value.token)
    ensures r.Done? && r.value.token.event == Docdecl ==> !seenDocdecl && r.value.seenDocdecl
    ensures r.Done? && seenDocdecl ==> r.value.seenDocdecl
  {
    if p == |s| then StartTag.Stop(Truncated)
    else if first && s[p] == NONCHARACTER_FFFE then StartTag.Stop(Reject(FirstCharNonCharacterFFFE))
    else if first && (s[p] == BOM || s[p] == REPLACEMENT_CHAR) then
      if p + 1 == |s| then StartTag.Stop(Truncated)
      else if s[p] == REPLACEMENT_CHAR && s[p + 1] == REPLACEMENT_CHAR then StartTag.Stop(Reject(Utf16BomInUtf8))
      else PrologLoop(s, p + 1, mode, ctx, first, seenDocdecl, false, false, Gather(p + 1, p + 1, false, []))
    else PrologLoop(s, p, mode, ctx, first, seenDocdecl, false, false, Gather(p, p, false, []))
  }

  /**
   * The loop of `parseProlog` at `s[p]`, which it has consumed: white space
   * is gathered (`gotS`), normalised when `NormalizeIgnorable`; comments,
   * processing instructions and one document type declaration are skipped
   * by `next()` and reported by `nextToken()`; the first start tag is the
   * root element; anything else is an error.
   */
  function PrologLoop(s: Str, p: nat, mode: Mode, ctx: Context, first: bool, seenDocdecl: bool,
                      gotS: bool, normalizedCR: bool, g: Gather): (r: StartTag.Parsed<PrologStep>)
    requires p < |s| && g.posStart <= p && GatherOk(g) && ContextOk(ctx)
    ensures r.Done? ==> p < r.next <= |s| && PrologReported(mode, r.value.token)
    ensures r.Done? && r.value.token.event == Docdecl ==> !seenDocdecl && r.value.seenDocdecl
    ensures r.Done? && seenDocdecl ==> r.value.seenDocdecl
    decreases |s| - p, 2
  {
    var ch := s[p];
    if ch == LT then
      if gotS && mode.tokenize then
        StartTag.Done(PrologStep(Token(IgnorableWhitespace(TextAt(s, g, p)), SeenMarkup), seenDocdecl), p + 1)
      else if p + 1 == |s| then StartTag.Stop(Truncated)
      else PrologMarkup(s, p, mode, ctx, first, seenDocdecl, gotS, normalizedCR, g)
    else if XmlChars.IsS(ch) then
      var g1 := if NormalizeIgnorable(mode) then EolGather(s, p, normalizedCR, g) else g;
      PrologNext(s, p + 1, mode, ctx, first, seenDocdecl, true, ch == XmlChars.CR, g1)
    else StartTag.Stop(Reject(OnlyWhitespaceBeforeStartTag(ch)))
  }

  /** `ch = more()` at the bottom of the prolog loop; the prolog cannot end with the input. */
  function PrologNext(s: Str, k: nat, mode: Mode, ctx: Context, first: bool, seenDocdecl: bool,
                      gotS: bool, normalizedCR: bool, g: Gather): (r: StartTag.Parsed<PrologStep>)
    requires k <= |s| && g.posStart <= k && GatherOk(g) && ContextOk(ctx)
    ensures r.Done? ==> k < r.next <= |s| && PrologReported(mode, r.value.token)
    ensures r.Done? && r.value.token.event == Docdecl ==> !seenDocdecl && r.value.seenDocdecl
    ensures r.Done? && seenDocdecl ==> r.value.seenDocdecl
    decreases |s| - k, 3
  {
    if k == |s| then StartTag.Stop(Truncated)
    else PrologLoop(s, k, mode, ctx, first, seenDocdecl, gotS, normalizedCR, g)
  }

  /** Markup in the prolog at `p` (a `<`, with a character after it). */
  function PrologMarkup(s: Str, p: nat, mode: Mode, ctx: Context, first: bool, seenDocdecl: bool,
                        gotS: bool, normalizedCR: bool, g: Gather): (r: StartTag.Parsed<PrologStep>)
    requires p + 1 < |s| && s[p] == LT && g.posStart <= p && GatherOk(g) && ContextOk(ctx)
    ensures r.Done? ==> p < r.next <= |s| && PrologReported(mode, r.value.token)
    ensures r.Done? && r.value.token.event == Docdecl ==> !seenDocdecl && r.value.seenDocdecl
    ensures r.Done? && seenDocdecl ==> r.value.seenDocdecl
    decreases |s| - p, 1
  {
    var c := s[p + 1];
    if c == Markup.QUESTION then
      var at := Track(s, p + 2);
      var pi := Markup.PIScanAt(s, p + 2, p + 2, first, false, at.0, at.1).scan;
      PrologSkip(s, p, pi, PIEvent, mode, ctx, first, seenDocdecl, gotS, normalizedCR, g)
    else if c == BANG then
      if p + 2 == |s| then StartTag.Stop(Truncated)
      else if s[p + 2] == DOCTYPE_D then
        if seenDocdecl then StartTag.Stop(Reject(OnlyOneDocdecl))
        else PrologSkip(s, p, Markup.DocdeclScan(s, p + 3), Docdecl, mode, ctx, first, seenDocdecl, gotS, normalizedCR, g)
      else if s[p + 2] == Markup.DASH then
        var at := Track(s, p + 3);
        PrologSkip(s, p, Markup.CommentScan(s, p + 3, at.0, at.1), CommentEvent, mode, ctx, first, seenDocdecl, gotS, normalizedCR, g)
      else StartTag.Stop(Reject(UnexpectedMarkupBang(s[p + 2])))
    else if c == StartTag.SLASH then StartTag.Stop(Reject(ExpectedStartTagName(c)))
    else if XmlChars.IsNameStartChar(c) then
      match StartTag.StartTagScan(s, p + 1, ctx.namespaces, ctx.names, ctx.replacements)
      case Done(tag, k) => StartTag.Done(PrologStep(Token(StartTagEvent(tag), NoneRead), seenDocdecl), k)
      case Stop(sc) => StartTag.Stop(sc)
    else StartTag.Stop(Reject(ExpectedStartTagName(c)))
  }

  /**
   * A comment, processing instruction or document type declaration at `p`
   * that its recogniser ended with `sc`: `nextToken()` reports it, `next()`
   * goes on after it. Reading a document type declaration sets
   * `seenDocdecl`.
   */
  function PrologSkip(s: Str, p: nat, sc: Scan, event: Event, mode: Mode, ctx: Context, first: bool, seenDocdecl: bool,
                      gotS: bool, normalizedCR: bool, g: Gather): (r: StartTag.Parsed<PrologStep>)
    requires p < |s| && g.posStart <= p && GatherOk(g) && ContextOk(ctx)
    requires sc.Accept? ==> p < sc.next <= |s|
    requires event == CommentEvent || event == PIEvent || event == Docdecl
    requires event == Docdecl ==> !seenDocdecl
    ensures r.Done? ==> p < r.next <= |s| && PrologReported(mode, r.value.token)
    ensures r.Done? && r.value.token.event == Docdecl ==> !seenDocdecl && r.value.seenDocdecl
    ensures r.Done? && seenDocdecl ==> r.value.seenDocdecl
    decreases |s| - p, 0
  {
    match sc
    case Accept(k) =>
      var seen := seenDocdecl || event == Docdecl;
      if mode.tokenize then StartTag.Done(PrologStep(Token(event, NoneRead), seen), k)
      else PrologNext(s, k, mode, ctx, first, seen, gotS, normalizedCR, g)
    case _ => StartTag.Stop(sc)
  }

  /**
   * `parseEpilog` from `s[p]`: a second call after END_DOCUMENT (`ended`) is
   * an error; once the end was reached, or when there is nothing more to
   * read, the document ends.
   */
  function EpilogStart(s: Str, p: nat, mode: Mode, ended: bool, reachedEnd: bool): (r: StartTag.Parsed<EpilogStep>)
    requires p <= |s| && (reachedEnd ==> p == |s|)
    ensures r.Done? ==> p <= r.next <= |s| && EpilogReported(mode, r.value)
    ensures r.Done? ==> (r.value.reachedEnd ==> r.next == |s|) && (!r.value.reachedEnd ==> p < r.next)
  {
    if ended then StartTag.Stop(Reject(AlreadyReachedEnd))
    else if reachedEnd || p == |s| then StartTag.Done(EpilogStep(Token(EndDocument, NoneRead), true), |s|)
    else EpilogLoop(s, p, mode, false, false, Gather(p, p, false, []))
  }

  /**
   * The end of the input in the epilog: the `EOFException` is caught, and
   * white space gathered by `nextToken()` is reported before END_DOCUMENT.
   */
  function EpilogEnd(s: Str, mode: Mode, gotS: bool, g: Gather): (r: StartTag.Parsed<EpilogStep>)
    requires g.posStart <= |s|
    ensures r.Done? && r.next == |s| && r.value.reachedEnd && EpilogReported(mode, r.value)
  {
    if mode.tokenize && gotS then
      StartTag.Done(EpilogStep(Token(IgnorableWhitespace(TextAt(s, g, |s|)), NoneRead), true), |s|)
    else StartTag.Done(EpilogStep(Token(EndDocument, NoneRead), true), |s|)
  }

  /**
   * The loop of `parseEpilog` at `s[p]`, which it has consumed: white space
   * is gathered as in the prolog, comments, processing instructions and
   * document type declarations are skipped by `next()` and reported by
   * `nextToken()`, and a tag or any other character is an error.
   */
  function EpilogLoop(s: Str, p: nat, mode: Mode, gotS: bool, normalizedCR: bool, g: Gather): (r: StartTag.Parsed<EpilogStep>)
    requires p < |s| && g.posStart <= p && GatherOk(g)
    ensures r.Done? ==> p < r.next <= |s| && EpilogReported(mode, r.value)
    ensures r.Done? && r.value.reachedEnd ==> r.next == |s|
    decreases |s| - p, 2
  {
    var ch := s[p];
    if ch == LT then
      if gotS && mode.tokenize then
        StartTag.Done(EpilogStep(Token(IgnorableWhitespace(TextAt(s, g, p)), SeenMarkup), false), p + 1)
      else if p + 1 == |s| then EpilogEnd(s, mode, gotS, g)
      else EpilogMarkup(s, p, mode, gotS, normalizedCR, g)
    else if XmlChars.IsS(ch) then
      var g1 := if NormalizeIgnorable(mode) then EolGather(s, p, normalizedCR, g) else g;
      EpilogNext(s, p + 1, mode, true, ch == XmlChars.CR, g1)
    else StartTag.Stop(Reject(EpilogNonWhitespace(ch)))
  }

  /** `ch = more()` at the bottom of the epilog loop: the end of the input ends the document. */
  function EpilogNext(s: Str, k: nat, mode: Mode, gotS: bool, normalizedCR: bool, g: Gather): (r: StartTag.Parsed<EpilogStep>)
    requires k <= |s| && g.posStart <= k && GatherOk(g)
    ensures r.Done? ==> k <= r.next <= |s| && EpilogReported(mode, r.value)
    ensures r.Done? ==> (r.value.reachedEnd ==> r.next == |s|) && (!r.value.reachedEnd ==> k < r.next)
    decreases |s| - k, 3
  {
    if k == |s| then EpilogEnd(s, mode, gotS, g)
    else EpilogLoop(s, k, mode, gotS, normalizedCR, g)
  }

  /** Markup in the epilog at `p` (a `<`, with a character after it). */
  function EpilogMarkup(s: Str, p: nat, mode: Mode, gotS: bool, normalizedCR: bool, g: Gather): (r: StartTag.Parsed<EpilogStep>)
    requires p + 1 < |s| && s[p] == LT && g.posStart <= p && GatherOk(g)
    ensures r.Done? ==> p < r.next <= |s| && EpilogReported(mode, r.value)
    ensures r.Done? && r.value.reachedEnd ==> r.next == |s|
    decreases |s| - p, 1
  {
    var c := s[p + 1];
    if c == Markup.QUESTION then
      var at := Track(s, p + 2);
      EpilogSkip(s, p, Markup.PIScanAt(s, p + 2, p + 2, false, false, at.0, at.1).scan, PIEvent, mode, gotS, normalizedCR, g)
    else if c == BANG then
      if p + 2 == |s| then EpilogEnd(s, mode, gotS, g)
      else if s[p + 2] == DOCTYPE_D then
        EpilogSkip(s, p, Markup.DocdeclScan(s, p + 3), Docdecl, mode, gotS, normalizedCR, g)
      else if s[p + 2] == Markup.DASH then
        var at := Track(s, p + 3);
        EpilogSkip(s, p, Markup.CommentScan(s, p + 3, at.0, at.1), CommentEvent, mode, gotS, normalizedCR, g)
      else StartTag.Stop(Reject(UnexpectedMarkupBang(s[p + 2])))
    else if c == StartTag.SLASH then StartTag.Stop(Reject(EndTagInEpilog(c)))
    else if XmlChars.IsNameStartChar(c) then StartTag.Stop(Reject(StartTagInEpilog(c)))
    else StartTag.Stop(Reject(EpilogExpectedIgnorable(c)))
  }

  /**
   * A comment, processing instruction or document type declaration in the
   * epilog that its recogniser ended with `sc`; the end of the input inside
   * it ends the document, as the `EOFException` is caught.
   */
  function EpilogSkip(s: Str, p: nat, sc: Scan, event: Event, mode: Mode, gotS: bool, normalizedCR: bool, g: Gather)
    : (r: StartTag.Parsed<EpilogStep>)
    requires p < |s| && g.posStart <= p && GatherOk(g)
    requires sc.Accept? ==> p < sc.next <= |s|
    requires event == CommentEvent || event == PIEvent || event == Docdecl
    ensures r.Done? ==> p < r.next <= |s| && EpilogReported(mode, r.value)
    ensures r.Done? && r.value.reachedEnd ==> r.next == |s|
    decreases |s| - p, 0
  {
    match sc
    case Accept(k) =>
      if mode.tokenize then StartTag.Done(EpilogStep(Token(event, NoneRead), false), k)
      else EpilogNext(s, k, mode, gotS, normalizedCR, g)
    case Truncated => EpilogEnd(s, mode, gotS, g)
    case _ => StartTag.Stop(sc)
  }

  // ---------------------------------------------------------------------
  // One call of `nextImpl`

  /**
   * What `nextImpl` consults besides the input: the element depth, whether
   * the root was seen, the end tag still owed to an empty element and the
   * depth still to drop after an end tag, the read-ahead, the prolog's and
   * epilog's flags, and whether the last event was START_DOCUMENT
   * (`atStart`) or END_DOCUMENT (`ended`).
   */
  datatype Resume = Resume(depth: nat, seenRoot: bool, emptyElementTag: bool, pastEndTag: bool, pending: Pending,
                           seenDocdecl: bool, reachedEnd: bool, atStart: bool, ended: bool)

  /** The event of one call, and `seenDocdecl` and `reachedEnd` after it. */
  datatype Outcome = Outcome(token: Token, seenDocdecl: bool, reachedEnd: bool)

  /** The depth once a pending end tag has been left (`pastEndTag`). */
  function DepthAfter(st: Resume): nat
  {
    if st.pastEndTag && st.depth > 0 then st.depth - 1 else st.depth
  }

  /** The read-ahead `nextImpl` resumes from: a tag name or `</` needs two characters behind `p`, a `<` or `&` one. */
  predicate ResumeOk(s: Str, p: nat, st: Resume)
  {
    p <= |s| && (st.reachedEnd ==> p == |s| && st.pending == NoneRead) && (st.pastEndTag ==> st.depth > 0)
    && (st.pending == SeenStartTag || st.pending == SeenEndTag ==> 2 <= p)
    && (st.pending == SeenMarkup || st.pending == SeenAmpersand ==> 1 <= p && s[p - 1] == (if st.pending == SeenMarkup then LT else AMP))
  }

  /**
   * `nextImpl` at offset `p` (`pos`): the end tag owed to an empty element
   * is reported without reading; inside the root a remembered start or end
   * tag is parsed, or the content loop runs from the remembered `<` or `&`
   * or from the next character; outside the root the prolog or the epilog
   * runs, from the remembered `<` if any.
   */
  function NextImpl(s: Str, p: nat, mode: Mode, ctx: Context, st: Resume): (r: StartTag.Parsed<Outcome>)
    requires ResumeOk(s, p, st) && ContextOk(ctx)
    ensures r.Done? ==> p <= r.next <= |s|
    ensures r.Done? && (st.emptyElementTag || DepthAfter(st) > 0) ==>
      Reported(mode, r.value.token) && r.value.seenDocdecl == st.seenDocdecl && r.value.reachedEnd == st.reachedEnd
    ensures r.Done? && !st.emptyElementTag && DepthAfter(st) == 0 && !st.seenRoot ==>
      PrologReported(mode, r.value.token) && !r.value.reachedEnd
    ensures r.Done? && !st.emptyElementTag && DepthAfter(st) == 0 && st.seenRoot ==>
      EpilogReported(mode, EpilogStep(r.value.token, r.value.reachedEnd))
  {
    if st.emptyElementTag then StartTag.Done(Outcome(Token(EndTagEvent, NoneRead), st.seenDocdecl, st.reachedEnd), p)
    else if DepthAfter(st) > 0 then
      var inside := NextInside(s, p, mode, ctx, st.pending);
      match inside
      case Done(t, k) => StartTag.Done(Outcome(t, st.seenDocdecl, st.reachedEnd), k)
      case Stop(sc) => StartTag.Stop(sc)
    else
      var q := if st.pending == SeenMarkup then p - 1 else p;
      if st.seenRoot then
        match EpilogStart(s, q, mode, st.ended, st.reachedEnd)
        case Done(e, k) => StartTag.Done(Outcome(e.token, st.seenDocdecl, e.reachedEnd), k)
        case Stop(sc) => StartTag.Stop(sc)
      else
        match PrologStart(s, q, mode, ctx, st.atStart, st.seenDocdecl)
        case Done(e, k) => StartTag.Done(Outcome(e.token, e.seenDocdecl, st.reachedEnd), k)
        case Stop(sc) => StartTag.Stop(sc)
  }

  /** Inside the root element: the remembered tag, or the content loop from the character it starts with. */
  function NextInside(s: Str, p: nat, mode: Mode, ctx: Context, pending: Pending): (r: StartTag.Parsed<Token>)
    requires p <= |s| && ContextOk(ctx)
    requires pending == SeenStartTag || pending == SeenEndTag ==> 2 <= p
    requires pending == SeenMarkup || pending == SeenAmpersand ==> 1 <= p
    ensures r.Done? ==> p <= r.next <= |s| && Reported(mode, r.value)
  {
    match pending
    case SeenStartTag =>
      (match StartTag.StartTagScan(s, p - 1, ctx.namespaces, ctx.names, ctx.replacements)
       case Done(tag, k) => StartTag.Done(Token(StartTagEvent(tag), NoneRead), k)
       case Stop(sc) => StartTag.Stop(sc))
    case SeenEndTag =>
      (match EndTagScan(s, p, ctx.open)
       case Accept(k) => StartTag.Done(Token(EndTagEvent, NoneRead), k)
       case sc => StartTag.Stop(sc))
    case NoneRead =>
      if p == |s| then StartTag.Stop(Truncated)
      else ContentLoop(s, p, mode, ctx, false, false, false, Gather(p, p, false, []))
    case _ =>
      ContentLoop(s, p - 1, mode, ctx, false, false, false, Gather(p - 1, p - 1, false, []))
  }

  // ---------------------------------------------------------------------
  // What the prolog and the epilog accept

  /** The white space `s[a..e)` as the loops gather it: normalised when `NormalizeIgnorable`. */
  function SpaceText(s: Str, a: nat, e: nat, mode: Mode): Str
    requires a <= e <= |s|
  {
    if NormalizeIgnorable(mode) then XmlChars.EolFold(s[a..e], false) else s[a..e]
  }

  /**
   * The gathering state of the prolog and epilog loops at `p`: everything
   * since `g.posStart` is white space, `gotS` says there was some,
   * `normalizedCR` that the last was a `\r`, and it is gathered as
   * `SpaceText`.
   */
  predicate SpaceState(s: Str, p: nat, mode: Mode, gotS: bool, normalizedCR: bool, g: Gather)
    requires g.posStart <= p <= |s|
  {
    SIn(s, g.posStart, p) && (gotS <==> g.posStart < p)
    && (normalizedCR <==> g.posStart < p && s[p - 1] == XmlChars.CR)
    && TextState(s, g.posStart, p, NormalizeIgnorable(mode), normalizedCR, g, [])
  }

  /** A fresh gathering state at `p`. */
  lemma SpaceStateStart(s: Str, p: nat, mode: Mode)
    requires p <= |s|
    ensures SpaceState(s, p, mode, false, false, Gather(p, p, false, []))
  {
    assert s[p..p] == [];
  }

  /** One more white space character keeps `SpaceState`. */
  lemma SpaceStateStep(s: Str, p: nat, mode: Mode, gotS: bool, normalizedCR: bool, g: Gather)
    requires p < |s| && g.posStart <= p && GatherOk(g) && XmlChars.IsS(s[p])
    requires SpaceState(s, p, mode, gotS, normalizedCR, g)
    ensures var g1 := if NormalizeIgnorable(mode) then EolGather(s, p, normalizedCR, g) else g;
      g1.posStart == g.posStart && GatherOk(g1) && SpaceState(s, p + 1, mode, true, s[p] == XmlChars.CR, g1)
  {
    TextStep(s, g.posStart, p, NormalizeIgnorable(mode), normalizedCR, g, []);
  }

  /** One white space character in the prolog loop. */
  lemma PrologLoopSpace(s: Str, p: nat, mode: Mode, ctx: Context, first: bool, seenDocdecl: bool,
                        gotS: bool, normalizedCR: bool, g: Gather)
    requires p + 1 < |s| && g.posStart <= p && GatherOk(g) && ContextOk(ctx) && XmlChars.IsS(s[p])
    ensures PrologLoop(s, p, mode, ctx, first, seenDocdecl, gotS, normalizedCR, g)
      == PrologLoop(s, p + 1, mode, ctx, first, seenDocdecl, true, s[p] == XmlChars.CR,
                    if NormalizeIgnorable(mode) then EolGather(s, p, normalizedCR, g) else g)
  {
  }

  /** One white space character in the epilog loop. */
  lemma EpilogLoopSpace(s: Str, p: nat, mode: Mode, gotS: bool, normalizedCR: bool, g: Gather)
    requires p + 1 < |s| && g.posStart <= p && GatherOk(g) && XmlChars.IsS(s[p])
    ensures EpilogLoop(s, p, mode, gotS, normalizedCR, g)
      == EpilogLoop(s, p + 1, mode, true, s[p] == XmlChars.CR, if NormalizeIgnorable(mode) then EolGather(s, p, normalizedCR, g) else g)
  {
  }

  /**
   * `nextToken()` in the prolog: white space up to a `<` at `q` is one
   * IGNORABLE_WHITESPACE event, its text the run normalised unless
   * round-trip is on, and the `<` is remembered.
   */
  lemma {:induction false} PrologSpaceThenMarkup(s: Str, p: nat, q: nat, mode: Mode, ctx: Context, first: bool, seenDocdecl: bool,
                                                 gotS: bool, normalizedCR: bool, g: Gather)
    requires mode.tokenize && p <= q < |s| && s[q] == LT && SIn(s, p, q) && g.posStart < q
    requires g.posStart <= p && GatherOk(g) && ContextOk(ctx) && SpaceState(s, p, mode, gotS, normalizedCR, g)
    ensures PrologLoop(s, p, mode, ctx, first, seenDocdecl, gotS, normalizedCR, g)
      == StartTag.Done(PrologStep(Token(IgnorableWhitespace(SpaceText(s, g.posStart, q, mode)), SeenMarkup), seenDocdecl), q + 1)
    decreases q - p
  {
    if p < q {
      SpaceStateStep(s, p, mode, gotS, normalizedCR, g);
      var g1 := if NormalizeIgnorable(mode) then EolGather(s, p, normalizedCR, g) else g;
      PrologLoopSpace(s, p, mode, ctx, first, seenDocdecl, gotS, normalizedCR, g);
      PrologSpaceThenMarkup(s, p + 1, q, mode, ctx, first, seenDocdecl, true, s[p] == XmlChars.CR, g1);
    } else {
      assert TextAt(s, g, q) == SpaceText(s, g.posStart, q, mode);
    }
  }

  /** `nextToken()` in the epilog: white space up to a `<` is one IGNORABLE_WHITESPACE event, as in the prolog. */
  lemma {:induction false} EpilogSpaceThenMarkup(s: Str, p: nat, q: nat, mode: Mode, gotS: bool, normalizedCR: bool, g: Gather)
    requires mode.tokenize && p <= q < |s| && s[q] == LT && SIn(s, p, q) && g.posStart < q
    requires g.posStart <= p && GatherOk(g) && SpaceState(s, p, mode, gotS, normalizedCR, g)
    ensures EpilogLoop(s, p, mode, gotS, normalizedCR, g)
      == StartTag.Done(EpilogStep(Token(IgnorableWhitespace(SpaceText(s, g.posStart, q, mode)), SeenMarkup), false), q + 1)
    decreases q - p
  {
    if p < q {
      SpaceStateStep(s, p, mode, gotS, normalizedCR, g);
      var g1 := if NormalizeIgnorable(mode) then EolGather(s, p, normalizedCR, g) else g;
      EpilogLoopSpace(s, p, mode, gotS, normalizedCR, g);
      EpilogSpaceThenMarkup(s, p + 1, q, mode, true, s[p] == XmlChars.CR, g1);
    } else {
      assert TextAt(s, g, q) == SpaceText(s, g.posStart, q, mode);
    }
  }

  /**
   * White space up to the end of the input ends the document: `next()`
   * reports END_DOCUMENT, `nextToken()` the white space first, both with
   * the end reached.
   */
  lemma {:induction false} EpilogSpaceToEnd(s: Str, p: nat, mode: Mode, gotS: bool, normalizedCR: bool, g: Gather)
    requires p < |s| && SIn(s, p, |s|)
    requires g.posStart <= p && GatherOk(g) && SpaceState(s, p, mode, gotS, normalizedCR, g)
    ensures EpilogLoop(s, p, mode, gotS, normalizedCR, g)
      == StartTag.Done(EpilogStep(Token(if mode.tokenize then IgnorableWhitespace(SpaceText(s, g.posStart, |s|, mode)) else EndDocument,
                                        NoneRead), true), |s|)
    decreases |s| - p
  {
    SpaceStateStep(s, p, mode, gotS, normalizedCR, g);
    var g1 := if NormalizeIgnorable(mode) then EolGather(s, p, normalizedCR, g) else g;
    if p + 1 < |s| {
      assert EpilogLoop(s, p, mode, gotS, normalizedCR, g) == EpilogLoop(s, p + 1, mode, true, s[p] == XmlChars.CR, g1);
      EpilogSpaceToEnd(s, p + 1, mode, true, s[p] == XmlChars.CR, g1);
    } else {
      assert EpilogLoop(s, p, mode, gotS, normalizedCR, g) == EpilogEnd(s, mode, true, g1);
      assert TextAt(s, g1, |s|) == SpaceText(s, g.posStart, |s|, mode);
    }
  }

  /** `next()` passes over white space in the prolog: the loop at `p` is the loop after the run `s[p..q)`. */
  lemma {:induction false} PrologSkipsSpace(s: Str, p: nat, q: nat, mode: Mode, ctx: Context, first: bool, seenDocdecl: bool,
                                            gotS: bool, normalizedCR: bool, g: Gather)
    requires !mode.tokenize && p < q < |s| && SIn(s, p, q) && g.posStart <= p && GatherOk(g) && ContextOk(ctx)
    ensures PrologLoop(s, p, mode, ctx, first, seenDocdecl, gotS, normalizedCR, g)
      == PrologLoop(s, q, mode, ctx, first, seenDocdecl, true, s[q - 1] == XmlChars.CR, g)
    decreases q - p
  {
    assert XmlChars.IsS(s[p]);
    if p + 1 < q {
      PrologSkipsSpace(s, p + 1, q, mode, ctx, first, seenDocdecl, true, s[p] == XmlChars.CR, g);
    }
  }

  /** `next()` passes over white space in the epilog likewise. */
  lemma {:induction false} EpilogSkipsSpace(s: Str, p: nat, q: nat, mode: Mode, gotS: bool, normalizedCR: bool, g: Gather)
    requires !mode.tokenize && p < q < |s| && SIn(s, p, q) && g.posStart <= p && GatherOk(g)
    ensures EpilogLoop(s, p, mode, gotS, normalizedCR, g) == EpilogLoop(s, q, mode, true, s[q - 1] == XmlChars.CR, g)
    decreases q - p
  {
    assert XmlChars.IsS(s[p]);
    if p + 1 < q {
      EpilogSkipsSpace(s, p + 1, q, mode, true, s[p] == XmlChars.CR, g);
    }
  }

  /** The event of the root element's start tag at `q`, as the prolog reports it. */
  function RootAt(s: Str, q: nat, ctx: Context, seenDocdecl: bool): StartTag.Parsed<PrologStep>
    requires q + 1 < |s| && ContextOk(ctx)
  {
    match StartTag.StartTagScan(s, q + 1, ctx.namespaces, ctx.names, ctx.replacements)
    case Done(tag, k) => StartTag.Done(PrologStep(Token(StartTagEvent(tag), NoneRead), seenDocdecl), k)
    case Stop(sc) => StartTag.Stop(sc)
  }

  /**
   * Production [22] for `next()`: after white space the first start tag is
   * the root element, and anything else but markup is refused.
   */
  lemma PrologRootAfterSpace(s: Str, p: nat, q: nat, mode: Mode, ctx: Context, first: bool, seenDocdecl: bool)
    requires !mode.tokenize && p <= q < |s| && SIn(s, p, q) && ContextOk(ctx)
    ensures q + 1 < |s| && s[q] == LT && XmlChars.IsNameStartChar(s[q + 1]) ==>
      PrologStart(s, p, mode, ctx, first, seenDocdecl) == RootAt(s, q, ctx, seenDocdecl)
    ensures q + 1 < |s| && s[q] == LT && s[q + 1] == StartTag.SLASH ==>
      PrologStart(s, p, mode, ctx, first, seenDocdecl) == StartTag.Stop(Reject(ExpectedStartTagName(StartTag.SLASH)))
    ensures s[q] != LT && !XmlChars.IsS(s[q]) && (p < q || !first || !MarkAtStart(s[q])) ==>
      PrologStart(s, p, mode, ctx, first, seenDocdecl) == StartTag.Stop(Reject(OnlyWhitespaceBeforeStartTag(s[q])))
  {
    var g := Gather(p, p, false, []);
    if p < q {
      assert PrologStart(s, p, mode, ctx, first, seenDocdecl) == PrologLoop(s, p, mode, ctx, first, seenDocdecl, false, false, g);
      PrologSkipsSpace(s, p, q, mode, ctx, first, seenDocdecl, false, false, g);
      if q + 1 < |s| && s[q] == LT {
        assert PrologLoop(s, q, mode, ctx, first, seenDocdecl, true, s[q - 1] == XmlChars.CR, g)
          == PrologMarkup(s, q, mode, ctx, first, seenDocdecl, true, s[q - 1] == XmlChars.CR, g);
      }
    } else if q + 1 < |s| && s[q] == LT {
      assert PrologStart(s, p, mode, ctx, first, seenDocdecl) == PrologMarkup(s, q, mode, ctx, first, seenDocdecl, false, false, g);
    } else if !first || !MarkAtStart(s[q]) {
      assert PrologStart(s, p, mode, ctx, first, seenDocdecl) == PrologLoop(s, p, mode, ctx, first, seenDocdecl, false, false, g);
    }
  }

  /**
   * Production [27] for `next()`: after the root element, white space then a
   * start tag, an end tag or character data is refused.
   */
  lemma EpilogRefusesContent(s: Str, p: nat, q: nat, mode: Mode)
    requires !mode.tokenize && p <= q < |s| && SIn(s, p, q)
    ensures q + 1 < |s| && s[q] == LT && XmlChars.IsNameStartChar(s[q + 1]) ==>
      EpilogStart(s, p, mode, false, false) == StartTag.Stop(Reject(StartTagInEpilog(s[q + 1])))
    ensures q + 1 < |s| && s[q] == LT && s[q + 1] == StartTag.SLASH ==>
      EpilogStart(s, p, mode, false, false) == StartTag.Stop(Reject(EndTagInEpilog(StartTag.SLASH)))
    ensures s[q] != LT && !XmlChars.IsS(s[q]) ==>
      EpilogStart(s, p, mode, false, false) == StartTag.Stop(Reject(EpilogNonWhitespace(s[q])))
  {
    var g := Gather(p, p, false, []);
    assert EpilogStart(s, p, mode, false, false) == EpilogLoop(s, p, mode, false, false, g);
    if p < q {
      EpilogSkipsSpace(s, p, q, mode, false, false, g);
      if q + 1 < |s| && s[q] == LT {
        assert EpilogLoop(s, q, mode, true, s[q - 1] == XmlChars.CR, g) == EpilogMarkup(s, q, mode, true, s[q - 1] == XmlChars.CR, g);
      }
    } else if q + 1 < |s| && s[q] == LT {
      assert EpilogLoop(s, q, mode, false, false, g) == EpilogMarkup(s, q, mode, false, false, g);
    }
  }

  /**
   * `nextToken()` before the root and after it: white space up to markup is
   * one IGNORABLE_WHITESPACE event and the `<` is remembered.
   */
  lemma IgnorableWhitespaceBeforeMarkup(s: Str, p: nat, q: nat, mode: Mode, ctx: Context, first: bool, seenDocdecl: bool)
    requires mode.tokenize && p < q < |s| && s[q] == LT && SIn(s, p, q) && ContextOk(ctx)
    ensures PrologStart(s, p, mode, ctx, first, seenDocdecl)
      == StartTag.Done(PrologStep(Token(IgnorableWhitespace(SpaceText(s, p, q, mode)), SeenMarkup), seenDocdecl), q + 1)
    ensures EpilogStart(s, p, mode, false, false)
      == StartTag.Done(EpilogStep(Token(IgnorableWhitespace(SpaceText(s, p, q, mode)), SeenMarkup), false), q + 1)
  {
    SpaceStateStart(s, p, mode);
    PrologSpaceThenMarkup(s, p, q, mode, ctx, first, seenDocdecl, false, false, Gather(p, p, false, []));
    EpilogSpaceThenMarkup(s, p, q, mode, false, false, Gather(p, p, false, []));
  }

  /**
   * White space to the end of the input after the root: `next()` reports
   * END_DOCUMENT, `nextToken()` the white space and then END_DOCUMENT, and
   * any call after END_DOCUMENT is an error.
   */
  lemma EpilogEndsAfterSpace(s: Str, p: nat, mode: Mode)
    requires p <= |s| && SIn(s, p, |s|)
    ensures EpilogStart(s, p, mode, false, false)
      == StartTag.Done(EpilogStep(Token(if mode.tokenize && p < |s| then IgnorableWhitespace(SpaceText(s, p, |s|, mode)) else EndDocument,
                                        NoneRead), true), |s|)
    ensures EpilogStart(s, |s|, mode, false, true) == StartTag.Done(EpilogStep(Token(EndDocument, NoneRead), true), |s|)
    ensures EpilogStart(s, |s|, mode, true, true) == StartTag.Stop(Reject(AlreadyReachedEnd))
  {
    if p < |s| {
      SpaceStateStart(s, p, mode);
      EpilogSpaceToEnd(s, p, mode, false, false, Gather(p, p, false, []));
    }
  }

  /** `<!D` stands at `i`. */
  predicate DoctypeOpenAt(s: Str, i: nat)
  {
    i + 3 <= |s| && s[i] == LT && s[i + 1] == BANG && s[i + 2] == DOCTYPE_D
  }

  /**
   * Production [22] admits one document type declaration: `next()` skips
   * the first, and a second one after white space is refused.
   */
  lemma SecondDoctypeRefused(s: Str, p: nat, k: nat, q: nat, mode: Mode, ctx: Context, first: bool)
    requires !mode.tokenize && p <= |s| && ContextOk(ctx)
    requires DoctypeOpenAt(s, p) && Markup.DocdeclScan(s, p + 3) == Accept(k)
    requires DoctypeOpenAt(s, q) && k <= q && SIn(s, k, q)
    ensures PrologStart(s, p, mode, ctx, first, false) == StartTag.Stop(Reject(OnlyOneDocdecl))
  {
    var g := Gather(p, p, false, []);
    assert PrologStart(s, p, mode, ctx, first, false) == PrologMarkup(s, p, mode, ctx, first, false, false, false, g);
    assert PrologMarkup(s, p, mode, ctx, first, false, false, false, g)
      == PrologSkip(s, p, Accept(k), Docdecl, mode, ctx, first, false, false, false, g);
    assert PrologStart(s, p, mode, ctx, first, false) == PrologNext(s, k, mode, ctx, first, true, false, false, g);
    assert PrologStart(s, p, mode, ctx, first, false) == PrologLoop(s, k, mode, ctx, first, true, false, false, g);
    if k < q {
      PrologSkipsSpace(s, k, q, mode, ctx, first, true, false, false, g);
      assert PrologLoop(s, q, mode, ctx, first, true, true, s[q - 1] == XmlChars.CR, g)
        == PrologMarkup(s, q, mode, ctx, first, true, true, s[q - 1] == XmlChars.CR, g);
    } else {
      assert PrologLoop(s, q, mode, ctx, first, true, false, false, g) == PrologMarkup(s, q, mode, ctx, first, true, false, false, g);
    }
  }

  /** A root element that is empty, with white space before and after it. */
  const EMPTY_ROOT: Str := Lit(" <r/> ")

  /**
   * `next()` over ` <r/> `: the prolog skips the space and reports the
   * root's START_TAG, the empty element's END_TAG follows without reading,
   * and the epilog skips the space and reports END_DOCUMENT.
   */
  lemma EmptyRootTrace(ctx: Context)
    requires ContextOk(ctx)
    ensures var r := NextImpl(EMPTY_ROOT, 0, Mode(false, false), ctx, Resume(0, false, false, false, NoneRead, false, false, true, false));
      r.Done? && r.next == 5 && r.value.token.event.StartTagEvent? && r.value.token.event.tag.empty
    ensures NextImpl(EMPTY_ROOT, 5, Mode(false, false), ctx, Resume(1, true, true, false, NoneRead, false, false, false, false))
      == StartTag.Done(Outcome(Token(EndTagEvent, NoneRead), false, false), 5)
    ensures NextImpl(EMPTY_ROOT, 5, Mode(false, false), ctx, Resume(1, true, false, true, NoneRead, false, false, false, false))
      == StartTag.Done(Outcome(Token(EndDocument, NoneRead), false, true), 6)
  {
  }
}
