/** What a correction rule does to a line, in terms of its text (tools/meiki_reference.py). */
module OcrMeaning {
  import opened Basics
  import opened OcrCorrections

  function Codes(chars: seq<OcrChar>): seq<CodePoint> {
    seq(|chars|, i requires 0 <= i < |chars| => chars[i].code)
  }

  // ---------------------------------------------------------------- when a rule applies

  /** Everything a token may be to stand for a place of the line: either end, or the character and its class. */
  function TokensAt(chars: seq<OcrChar>, index: int, unicode: Unicode): set<Token> {
    if 0 <= index < |chars| then {Literal(chars[index].code), OfClass(CharacterClass(chars[index].code, unicode))}
    else {Edge}
  }

  /** The text to find stands there, the places in front of it and behind it are of the wanted kinds, and no
      character of it is more certain than the rule allows. */
  ghost predicate Applies(rule: Rule, chars: seq<OcrChar>, pos: nat, unicode: Unicode) {
    var end := pos + |rule.find|;
    && end <= |chars| && Codes(chars)[pos..end] == rule.find
    && (forall i :: 0 <= i < |rule.before| ==> rule.before[i] in TokensAt(chars, pos - |rule.before| + i, unicode))
    && (forall i :: 0 <= i < |rule.after| ==> rule.after[i] in TokensAt(chars, end + i, unicode))
    && !exists c :: c in chars[pos..end] && rule.maxConfidence.Some? && c.confidence > rule.maxConfidence.value
  }

  lemma AppliesExactly(rule: Rule, chars: seq<OcrChar>, pos: nat, unicode: Unicode)
    ensures Applies(rule, chars, pos, unicode) <==> Matches(rule, chars, pos, unicode)
  {
    hide CharacterClass;
    var end := pos + |rule.find|;
    if end <= |chars| {
      assert forall i :: 0 <= i < |rule.find| ==> Codes(chars)[pos..end][i] == chars[pos + i].code;
      assert forall i :: pos <= i < end ==> chars[pos..end][i - pos] == chars[i];
      if Matches(rule, chars, pos, unicode) {
        assert Codes(chars)[pos..end] == rule.find;
      }
      if Applies(rule, chars, pos, unicode) && rule.maxConfidence.Some? {
        forall i | pos <= i < end
          ensures chars[i].confidence <= rule.maxConfidence.value
        {
          assert chars[i] in chars[pos..end];
        }
      }
    }
  }

  /** Which characters each class holds, whatever the others hold. */
  lemma ClassesExactly(c: CodePoint, unicode: Unicode)
    ensures CharacterClass(c, unicode).Hiragana? <==> 0x3041 <= c <= 0x309f
    ensures CharacterClass(c, unicode).Katakana? <==>
      0x30a1 <= c <= 0x30ff || 0x31f0 <= c <= 0x31ff || 0xff66 <= c <= 0xff9f
    ensures CharacterClass(c, unicode).Kanji? <==>
      (|| 0x4e00 <= c <= 0x9fff || 0x3400 <= c <= 0x4dbf || 0xf900 <= c <= 0xfaff
       || c == 0x3005 || c == 0x3006 || c == 0x3007)
    ensures CharacterClass(c, unicode).Digit? <==> unicode.isDigit(c) && !Japanese(c)
    ensures CharacterClass(c, unicode).Latin? <==> IsLatin(c) && !unicode.isDigit(c)
    ensures CharacterClass(c, unicode).Space? <==>
      unicode.isSpace(c) && !unicode.isDigit(c) && !Japanese(c) && !IsLatin(c)
  {
  }

  predicate Japanese(c: CodePoint) {
    || 0x3041 <= c <= 0x309f || 0x30a1 <= c <= 0x30ff || 0x31f0 <= c <= 0x31ff || 0xff66 <= c <= 0xff9f
    || 0x4e00 <= c <= 0x9fff || 0x3400 <= c <= 0x4dbf || 0xf900 <= c <= 0xfaff || 0x3005 <= c <= 0x3007
  }

  /** The letters of ASCII and their full-width forms. */
  predicate IsLatin(c: CodePoint) {
    || 'A' as int <= c <= 'Z' as int || 'a' as int <= c <= 'z' as int
    || 0xff21 <= c <= 0xff3a || 0xff41 <= c <= 0xff5a
  }

  // ---------------------------------------------------------------- what one pass does

  /** Places from one on, each far enough behind the one in front for its text. */
  ghost predicate Apart(at: seq<nat>, from: nat, size: nat) {
    at == [] || (from <= at[0] && Apart(at[1..], at[0] + size, size))
  }

  /** p is in the text of one of the places. */
  ghost predicate Inside(at: seq<nat>, size: nat, p: nat) {
    at != [] && (at[0] <= p < at[0] + size || Inside(at[1..], size, p))
  }

  /** The places from one on where a pass replaces: each is one the rule applies at, none begins inside
      another, and any other place the rule applies at is inside the replaced text. */
  ghost predicate ReplacedAt(rule: Rule, chars: seq<OcrChar>, unicode: Unicode, from: nat, at: seq<nat>) {
    && Apart(at, from, |rule.find|)
    && (forall p :: p in at ==> Applies(rule, chars, p, unicode))
    && (forall p: nat :: from <= p < |chars| && Applies(rule, chars, p, unicode) ==> Inside(at, |rule.find|, p))
  }

  /** out is the line from one place on with the text at the given places replaced: what is between them is as
      it was, and each replacement has the least confidence of what it replaces. */
  ghost predicate IsRewritten(out: seq<OcrChar>, rule: Rule, chars: seq<OcrChar>, from: nat, at: seq<nat>)
    requires from <= |chars|
    decreases |at|
  {
    if at == [] then out == chars[from..]
    else
      var gap, end := at[0] - from, at[0] + |rule.find|;
      && from <= at[0] && end <= |chars| && gap + |rule.replace| <= |out|
      && out[..gap] == chars[from..at[0]]
      && IsReplacement(out[gap..gap + |rule.replace|], rule, chars[at[0]..end])
      && IsRewritten(out[gap + |rule.replace|..], rule, chars, end, at[1..])
  }

  ghost predicate IsReplacement(block: seq<OcrChar>, rule: Rule, span: seq<OcrChar>) {
    && Codes(block) == rule.replace
    && forall c :: c in block ==>
         && (forall s :: s in span ==> c.confidence <= s.confidence)
         && exists s :: s in span && c.confidence == s.confidence
  }

  lemma ReplacementIs(rule: Rule, span: seq<OcrChar>, vertical: bool)
    requires span != []
    ensures IsReplacement(Replacement(rule.replace, span, vertical), rule, span)
  {
    hide ReplacedBox;
    var block, least := Replacement(rule.replace, span, vertical), LeastConfidence(span);
    assert Codes(block) == rule.replace;
    var k :| 0 <= k < |span| && least == span[k].confidence;
    assert span[k] in span;
    forall s | s in span
      ensures least <= s.confidence
    {
      var i :| 0 <= i < |span| && span[i] == s;
    }
    forall c | c in block
      ensures c.confidence == least
    {
    }
  }

  /** A pass of a rule that finds something rewrites the line at exactly the places where it applies, the
      leftmost of overlapping ones, and nowhere else. */
  lemma {:induction false} PassRewrites(rule: Rule, chars: seq<OcrChar>, vertical: bool, unicode: Unicode, from: nat)
    returns (at: seq<nat>)
    requires rule.find != [] && from <= |chars|
    ensures ReplacedAt(rule, chars, unicode, from, at)
    ensures var out := Pass(rule, chars, vertical, unicode, from);
      out.Some? && IsRewritten(out.value, rule, chars, from, at)
    decreases |chars| - from
  {
    hide Applies, Matches, Replacement, ReplacedAt, IsReplacement, IsRewritten, Pass;
    PassFailsExactly(rule, chars, vertical, unicode, from);
    if from == |chars| {
      at := [];
      NothingLeft(rule, chars, vertical, unicode);
    } else {
      AppliesExactly(rule, chars, from, unicode);
      PassSteps(rule, chars, vertical, unicode, from);
      var end := if Matches(rule, chars, from, unicode) then from + |rule.find| else from + 1;
      var rest := PassRewrites(rule, chars, vertical, unicode, end);
      var tail := Pass(rule, chars, vertical, unicode, end).value;
      if Matches(rule, chars, from, unicode) {
        at := [from] + rest;
        ReplacedHere(rule, chars, unicode, from, rest);
        ReplacementIs(rule, chars[from..end], vertical);
        OneReplaced(Replacement(rule.replace, chars[from..end], vertical), tail, rule, chars, from, rest);
      } else {
        at := rest;
        NotHere(rule, chars, unicode, from, rest);
        OneMoreInFront(tail, rule, chars, from, rest);
      }
    }
  }

  lemma NothingLeft(rule: Rule, chars: seq<OcrChar>, vertical: bool, unicode: Unicode)
    ensures ReplacedAt(rule, chars, unicode, |chars|, [])
    ensures Pass(rule, chars, vertical, unicode, |chars|) == Some([])
    ensures IsRewritten([], rule, chars, |chars|, [])
  {
    assert chars[|chars|..] == [];
  }

  lemma NotHere(rule: Rule, chars: seq<OcrChar>, unicode: Unicode, from: nat, rest: seq<nat>)
    requires !Applies(rule, chars, from, unicode) && ReplacedAt(rule, chars, unicode, from + 1, rest)
    ensures ReplacedAt(rule, chars, unicode, from, rest)
  {
    hide Applies;
  }

  lemma OneReplaced(block: seq<OcrChar>, tail: seq<OcrChar>, rule: Rule, chars: seq<OcrChar>, from: nat, rest: seq<nat>)
    requires from + |rule.find| <= |chars| && |block| == |rule.replace|
    requires IsReplacement(block, rule, chars[from..from + |rule.find|])
    requires IsRewritten(tail, rule, chars, from + |rule.find|, rest)
    ensures IsRewritten(block + tail, rule, chars, from, [from] + rest)
  {
    hide IsReplacement;
    var out, at := block + tail, [from] + rest;
    assert out[..0] == chars[from..from] && out[0..|block|] == block;
    assert out[|block|..] == tail && at[1..] == rest;
  }

  lemma ReplacedHere(rule: Rule, chars: seq<OcrChar>, unicode: Unicode, from: nat, rest: seq<nat>)
    requires Applies(rule, chars, from, unicode) && ReplacedAt(rule, chars, unicode, from + |rule.find|, rest)
    ensures ReplacedAt(rule, chars, unicode, from, [from] + rest)
  {
    hide Applies;
    var at := [from] + rest;
    assert at[1..] == rest;
    forall p: nat | from <= p < |chars| && Applies(rule, chars, p, unicode)
      ensures Inside(at, |rule.find|, p)
    {
    }
  }

  /** A character that stays, in front of a rewritten line. */
  lemma OneMoreInFront(tail: seq<OcrChar>, rule: Rule, chars: seq<OcrChar>, from: nat, at: seq<nat>)
    requires from < |chars| && IsRewritten(tail, rule, chars, from + 1, at)
    ensures IsRewritten([chars[from]] + tail, rule, chars, from, at)
  {
    hide IsReplacement;
    var out := [chars[from]] + tail;
    if at == [] {
      assert out == chars[from..];
    } else {
      var gap := at[0] - from;
      assert out[..gap] == [chars[from]] + tail[..gap - 1];
      assert chars[from..at[0]] == [chars[from]] + chars[from + 1..at[0]];
      assert out[gap..gap + |rule.replace|] == tail[gap - 1..gap - 1 + |rule.replace|];
      assert out[gap + |rule.replace|..] == tail[gap - 1 + |rule.replace|..];
    }
  }

  /** The places are determined by the line. */
  lemma {:induction false} PlacesUnique(rule: Rule, chars: seq<OcrChar>, unicode: Unicode, from: nat, a: seq<nat>,
                                        b: seq<nat>)
    requires rule.find != []
    requires ReplacedAt(rule, chars, unicode, from, a) && ReplacedAt(rule, chars, unicode, from, b)
    ensures a == b
    decreases |a|
  {
    hide Applies;
    FirstPlace(rule, chars, unicode, from, a, b);
    FirstPlace(rule, chars, unicode, from, b, a);
    if a != [] && b != [] {
      LaterPlaces(rule, chars, unicode, from, a);
      LaterPlaces(rule, chars, unicode, from, b);
      PlacesUnique(rule, chars, unicode, a[0] + |rule.find|, a[1..], b[1..]);
      assert a == [a[0]] + a[1..] && b == [b[0]] + b[1..];
    }
  }

  lemma {:induction false} InsideFrom(at: seq<nat>, from: nat, size: nat, p: nat)
    requires Apart(at, from, size) && Inside(at, size, p)
    ensures from <= p && at[0] <= p
    decreases |at|
  {
    if !(at[0] <= p < at[0] + size) {
      InsideFrom(at[1..], at[0] + size, size, p);
    }
  }

  lemma FirstPlace(rule: Rule, chars: seq<OcrChar>, unicode: Unicode, from: nat, a: seq<nat>, b: seq<nat>)
    requires rule.find != []
    requires ReplacedAt(rule, chars, unicode, from, a) && ReplacedAt(rule, chars, unicode, from, b)
    ensures b != [] ==> a != [] && a[0] <= b[0]
  {
    if b != [] {
      assert b[0] in b;
      AppliesInside(rule, chars, b[0], unicode);
      InsideFrom(a, from, |rule.find|, b[0]);
    }
  }

  lemma AppliesInside(rule: Rule, chars: seq<OcrChar>, pos: nat, unicode: Unicode)
    requires Applies(rule, chars, pos, unicode)
    ensures pos + |rule.find| <= |chars|
  {
  }

  lemma LaterPlaces(rule: Rule, chars: seq<OcrChar>, unicode: Unicode, from: nat, a: seq<nat>)
    requires ReplacedAt(rule, chars, unicode, from, a) && a != []
    ensures ReplacedAt(rule, chars, unicode, a[0] + |rule.find|, a[1..])
  {
    hide Applies;
  }

  // ---------------------------------------------------------------- all rules

  /** One more rule: a horizontal one leaves a vertical line as it is and the other way round, and any other is
      applied to what the rules before it left. */
  lemma OneMoreRule(rules: seq<Rule>, rule: Rule, chars: seq<OcrChar>, vertical: bool, unicode: Unicode)
    requires Corrected(rules, chars, vertical, unicode).Some?
    ensures var before, after :=
        Corrected(rules, chars, vertical, unicode), Corrected(rules + [rule], chars, vertical, unicode);
      if (rule.mode == HorizontalOnly && vertical) || (rule.mode == VerticalOnly && !vertical) then after == before
      else after == Pass(rule, before.value, vertical, unicode, 0)
  {
    assert Front(rules + [rule]) == rules;
  }
}
