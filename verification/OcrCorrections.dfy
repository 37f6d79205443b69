/** The correction rules over recognized characters: each rule is one pass that rewrites text, confidences
    and boxes (tools/meiki_reference.py). */
module OcrCorrections {
  import opened Arithmetic
  import opened Basics

  type CodePoint = nat

  datatype Class = Hiragana | Katakana | Kanji | Digit | Latin | Space | Other

  /** What the rules ask of Unicode. */
  datatype Unicode = Unicode(isDigit: CodePoint -> bool, isSpace: CodePoint -> bool)

  function CharacterClass(c: CodePoint, unicode: Unicode): Class {
    if 0x3041 <= c <= 0x309f then Hiragana
    else if 0x30a1 <= c <= 0x30ff || 0x31f0 <= c <= 0x31ff || 0xff66 <= c <= 0xff9f then Katakana
    else if 0x4e00 <= c <= 0x9fff || 0x3400 <= c <= 0x4dbf || 0xf900 <= c <= 0xfaff then Kanji
    else if c in {0x3005, 0x3006, 0x3007} then Kanji
    else if unicode.isDigit(c) then Digit
    else if 0x41 <= c <= 0x5a || 0x61 <= c <= 0x7a || 0xff21 <= c <= 0xff3a || 0xff41 <= c <= 0xff5a then Latin
    else if unicode.isSpace(c) then Space
    else Other
  }

  /** Half open, like its two axes. */
  datatype Box = Box(left: int, top: int, right: int, bottom: int) {
    function Low(vertical: bool): int {
      if vertical then top else left
    }

    function High(vertical: bool): int {
      if vertical then bottom else right
    }
  }

  /** The box of an extent along an axis and one across it. */
  function BoxAlong(vertical: bool, low: int, high: int, lowAcross: int, highAcross: int): (box: Box)
    ensures box.Low(vertical) == low && box.High(vertical) == high
    ensures box.Low(!vertical) == lowAcross && box.High(!vertical) == highAcross
  {
    if vertical then Box(lowAcross, low, highAcross, high) else Box(low, lowAcross, high, highAcross)
  }

  datatype OcrChar = OcrChar(code: CodePoint, confidence: real, box: Box)

  /** BOS and EOS both stand for either end of the line. */
  datatype Token = Edge | Literal(code: CodePoint) | OfClass(class_: Class)

  datatype Mode = Both | HorizontalOnly | VerticalOnly

  datatype Rule = Rule(find: seq<CodePoint>, replace: seq<CodePoint>, before: seq<Token>, after: seq<Token>,
                       maxConfidence: Option<real>, mode: Mode)

  // ---------------------------------------------------------------- matching

  predicate TokenMatches(token: Token, chars: seq<OcrChar>, index: int, unicode: Unicode) {
    if index < 0 || index >= |chars| then token.Edge?
    else
      match token
      case Edge => false
      case Literal(code) => code == chars[index].code
      case OfClass(class_) => class_ == CharacterClass(chars[index].code, unicode)
  }

  predicate Matches(rule: Rule, chars: seq<OcrChar>, pos: nat, unicode: Unicode) {
    var end := pos + |rule.find|;
    && end <= |chars|
    && (forall i :: 0 <= i < |rule.find| ==> chars[pos + i].code == rule.find[i])
    && (forall i :: 0 <= i < |rule.before| ==> TokenMatches(rule.before[i], chars, pos - |rule.before| + i, unicode))
    && (forall i :: 0 <= i < |rule.after| ==> TokenMatches(rule.after[i], chars, end + i, unicode))
    && (rule.maxConfidence.Some? ==>
          forall i :: pos <= i < end ==> chars[i].confidence <= rule.maxConfidence.value)
  }

  // ---------------------------------------------------------------- rewriting

  function Least(span: seq<OcrChar>, value: OcrChar -> int): (least: int)
    requires span != []
    ensures forall i :: 0 <= i < |span| ==> least <= value(span[i])
    ensures exists i :: 0 <= i < |span| && least == value(span[i])
  {
    if |span| == 1 then value(span[0])
    else
      var rest := Least(span[1..], value);
      assert forall i :: 0 < i < |span| ==> span[i] == span[1..][i - 1];
      if value(span[0]) <= rest then value(span[0]) else rest
  }

  function LeastConfidence(span: seq<OcrChar>): (least: real)
    requires span != []
    ensures forall i :: 0 <= i < |span| ==> least <= span[i].confidence
    ensures exists i :: 0 <= i < |span| && least == span[i].confidence
  {
    if |span| == 1 then span[0].confidence
    else
      var rest := LeastConfidence(span[1..]);
      assert forall i :: 0 < i < |span| ==> span[i] == span[1..][i - 1];
      if span[0].confidence <= rest then span[0].confidence else rest
  }

  /** The smallest box around a span. */
  function HullLow(span: seq<OcrChar>, vertical: bool): int
    requires span != []
  {
    Least(span, (c: OcrChar) => c.box.Low(vertical))
  }

  function HullHigh(span: seq<OcrChar>, vertical: bool): int
    requires span != []
  {
    -Least(span, (c: OcrChar) => -c.box.High(vertical))
  }

  /** Where the i-th of count equal parts of the hull begins. */
  function PartStart(span: seq<OcrChar>, vertical: bool, i: nat, count: nat): int
    requires span != [] && count > 0
  {
    HullLow(span, vertical) + (HullHigh(span, vertical) - HullLow(span, vertical)) * i / count
  }

  function ReplacedBox(span: seq<OcrChar>, vertical: bool, i: nat, count: nat): Box
    requires span != [] && i < count
  {
    if count == |span| then span[i].box
    else BoxAlong(vertical, PartStart(span, vertical, i, count), PartStart(span, vertical, i + 1, count),
                  HullLow(span, !vertical), HullHigh(span, !vertical))
  }

  /** What a matched span becomes. */
  function Replacement(replace: seq<CodePoint>, span: seq<OcrChar>, vertical: bool): (out: seq<OcrChar>)
    requires span != []
    ensures |out| == |replace|
  {
    seq(|replace|, i requires 0 <= i < |replace| =>
      OcrChar(replace[i], LeastConfidence(span), ReplacedBox(span, vertical, i, |replace|)))
  }

  /** One pass from a position on: the leftmost match is replaced and the pass goes on behind it. None
      when an empty find matches, which the program cannot replace. */
  function Pass(rule: Rule, chars: seq<OcrChar>, vertical: bool, unicode: Unicode, pos: nat): Option<seq<OcrChar>>
    decreases |chars| - pos
  {
    if pos >= |chars| then Some([])
    else if !Matches(rule, chars, pos, unicode) then
      var rest := Pass(rule, chars, vertical, unicode, pos + 1);
      if rest.Some? then Some([chars[pos]] + rest.value) else None
    else if rule.find == [] then None
    else
      var end := pos + |rule.find|;
      var rest := Pass(rule, chars, vertical, unicode, end);
      if rest.Some? then Some(Replacement(rule.replace, chars[pos..end], vertical) + rest.value) else None
  }

  predicate Skipped(rule: Rule, vertical: bool) {
    rule.mode == if vertical then HorizontalOnly else VerticalOnly
  }

  /** All rules in turn, each over what the one before it left. */
  function Corrected(rules: seq<Rule>, chars: seq<OcrChar>, vertical: bool, unicode: Unicode): Option<seq<OcrChar>>
    decreases |rules|
  {
    if rules == [] then Some(chars)
    else
      var before := Corrected(Front(rules), chars, vertical, unicode);
      if before.None? then None
      else if Skipped(Last(rules), vertical) then before
      else Pass(Last(rules), before.value, vertical, unicode, 0)
  }

  // ---------------------------------------------------------------- the program

  /** The loop over a line of characters for one rule. failed tells that the rule cannot be applied. */
  method ApplyRule(rule: Rule, chars: seq<OcrChar>, vertical: bool, unicode: Unicode)
    returns (result: seq<OcrChar>, failed: bool)
    ensures Pass(rule, chars, vertical, unicode, 0) == if failed then None else Some(result)
  {
    result, failed := [], false;
    var pos := 0;
    JoinedNothing(Pass(rule, chars, vertical, unicode, 0));
    while pos < |chars|
      invariant pos <= |chars|
      invariant Joined(result, Pass(rule, chars, vertical, unicode, pos)) == Pass(rule, chars, vertical, unicode, 0)
      decreases |chars| - pos
    {
      if !Matches(rule, chars, pos, unicode) {
        JoinedTwice(result, [chars[pos]], Pass(rule, chars, vertical, unicode, pos + 1));
        result := result + [chars[pos]];
        pos := pos + 1;
        continue;
      }
      var end := pos + |rule.find|;
      var span := chars[pos..end];
      if span == [] {
        failed := true;
        return;
      }
      var replaced := Replaced(rule.replace, span, vertical);
      JoinedTwice(result, replaced, Pass(rule, chars, vertical, unicode, end));
      result := result + replaced;
      pos := end;
    }
    assert result + [] == result;
  }

  function Joined(front: seq<OcrChar>, rest: Option<seq<OcrChar>>): Option<seq<OcrChar>> {
    if rest.Some? then Some(front + rest.value) else None
  }

  lemma JoinedNothing(rest: Option<seq<OcrChar>>)
    ensures Joined([], rest) == rest
  {
    if rest.Some? {
      assert [] + rest.value == rest.value;
    }
  }

  lemma JoinedTwice(a: seq<OcrChar>, b: seq<OcrChar>, rest: Option<seq<OcrChar>>)
    ensures Joined(a, Joined(b, rest)) == Joined(a + b, rest)
  {
    if rest.Some? {
      assert a + (b + rest.value) == a + b + rest.value;
    }
  }

  /** The loop over the replacement's characters. */
  method Replaced(replace: seq<CodePoint>, span: seq<OcrChar>, vertical: bool) returns (out: seq<OcrChar>)
    requires span != []
    ensures out == Replacement(replace, span, vertical)
  {
    var confidence := LeastConfidence(span);
    var count := |replace|;
    out := [];
    for i := 0 to count
      invariant out == Replacement(replace, span, vertical)[..i]
    {
      out := out + [OcrChar(replace[i], confidence, ReplacedBox(span, vertical, i, count))];
    }
  }

  method ApplyChars(rules: seq<Rule>, chars: seq<OcrChar>, vertical: bool, unicode: Unicode)
    returns (corrected: Option<seq<OcrChar>>)
    ensures corrected == Corrected(rules, chars, vertical, unicode)
  {
    var current := chars;
    for n := 0 to |rules|
      invariant Corrected(rules[..n], chars, vertical, unicode) == Some(current)
    {
      assert Front(rules[..n + 1]) == rules[..n];
      if Skipped(rules[n], vertical) {
        continue;
      }
      var result, failed := ApplyRule(rules[n], current, vertical, unicode);
      if failed {
        FailsForGood(rules, chars, vertical, unicode, n + 1);
        return None;
      }
      current := result;
    }
    assert rules[..|rules|] == rules;
    return Some(current);
  }

  lemma {:induction false} FailsForGood(rules: seq<Rule>, chars: seq<OcrChar>, vertical: bool, unicode: Unicode, n: nat)
    requires n <= |rules| && Corrected(rules[..n], chars, vertical, unicode).None?
    ensures Corrected(rules, chars, vertical, unicode).None?
    decreases |rules| - n
  {
    if n == |rules| {
      assert rules[..n] == rules;
    } else {
      assert Front(rules[..n + 1]) == rules[..n];
      FailsForGood(rules, chars, vertical, unicode, n + 1);
    }
  }

  // ---------------------------------------------------------------- geometry

  /** Every box reads forward, and no box begins before the end of one in front of it. */
  ghost predicate InOrder(chars: seq<OcrChar>, vertical: bool) {
    && (forall i :: 0 <= i < |chars| ==> chars[i].box.Low(vertical) <= chars[i].box.High(vertical))
    && (forall i, j :: 0 <= i < j < |chars| ==> chars[i].box.High(vertical) <= chars[j].box.Low(vertical))
  }

  ghost predicate Between(chars: seq<OcrChar>, vertical: bool, low: int, high: int) {
    forall i :: 0 <= i < |chars| ==> low <= chars[i].box.Low(vertical) && chars[i].box.High(vertical) <= high
  }

  /** Replaced boxes cover the hull of the span: the first begins where it begins, each begins where the
      one in front ends, the last ends where it ends, and across the axis each is as wide as the hull. */
  ghost predicate Tiles(out: seq<OcrChar>, span: seq<OcrChar>, vertical: bool)
    requires span != []
  {
    out != [] ==>
      && out[0].box.Low(vertical) == HullLow(span, vertical)
      && Last(out).box.High(vertical) == HullHigh(span, vertical)
      && (forall i :: 0 < i < |out| ==> out[i - 1].box.High(vertical) == out[i].box.Low(vertical))
      && (forall i :: 0 <= i < |out| ==>
            && out[i].box.Low(!vertical) == HullLow(span, !vertical)
            && out[i].box.High(!vertical) == HullHigh(span, !vertical))
  }

  /** A replacement of another length tiles the hull of what it replaces; one of the same length keeps
      each box. */
  lemma ReplacementTiles(replace: seq<CodePoint>, span: seq<OcrChar>, vertical: bool)
    requires span != []
    ensures |replace| != |span| ==> Tiles(Replacement(replace, span, vertical), span, vertical)
    ensures |replace| == |span| ==>
      forall i :: 0 <= i < |span| ==> Replacement(replace, span, vertical)[i].box == span[i].box
  {
    hide HullLow, HullHigh;
    if |replace| != |span| && replace != [] {
      PartEnds(span, vertical, |replace|);
    }
  }

  lemma PartEnds(span: seq<OcrChar>, vertical: bool, count: nat)
    requires span != [] && count > 0
    ensures PartStart(span, vertical, 0, count) == HullLow(span, vertical)
    ensures PartStart(span, vertical, count, count) == HullHigh(span, vertical)
  {
    hide HullLow, HullHigh;
    var size := HullHigh(span, vertical) - HullLow(span, vertical);
    assert size * 0 / count == 0;
    WholeQuotient(size, count);
  }

  /** The parts of a hull are as even as whole pixels allow. */
  lemma PartsAreEven(span: seq<OcrChar>, vertical: bool, i: nat, count: nat)
    requires span != [] && i < count
    ensures var size := HullHigh(span, vertical) - HullLow(span, vertical);
      size / count <= PartStart(span, vertical, i + 1, count) - PartStart(span, vertical, i, count) <= size / count + 1
  {
    hide HullLow, HullHigh;
    EvenQuotients(HullHigh(span, vertical) - HullLow(span, vertical), i, count);
  }

  lemma EvenQuotients(size: int, i: nat, count: nat)
    requires count > 0
    ensures size / count <= size * (i + 1) / count - size * i / count <= size / count + 1
  {
    var q, a, b := size / count, size * i / count, size * (i + 1) / count;
    assert size == q * count + size % count;
    assert size * i == a * count + size * i % count;
    assert size * (i + 1) == b * count + size * (i + 1) % count;
    assert size * (i + 1) == size * i + size;
    Distribute(b, a, count);
    Distribute(b - a, q, count);
    Product(b - a, q, count);
    Product(b - a, q + 1, count);
    Distribute(q + 1, 1, count);
  }

  /** Later parts of a hull that reads forward do not begin earlier. */
  lemma PartsAscend(size: int, i: nat, j: nat, count: nat)
    requires size >= 0 && i <= j && count > 0
    ensures size * i / count <= size * j / count
  {
    assert size * (j - i) >= 0;
    assert size * j == size * i + size * (j - i);
    QuotientAscends(size * i, size * j, count);
  }

  /** The hull of boxes in order is from the first one's start to the last one's end. */
  lemma HullOfOrdered(span: seq<OcrChar>, vertical: bool)
    requires span != [] && InOrder(span, vertical)
    ensures HullLow(span, vertical) == span[0].box.Low(vertical)
    ensures HullHigh(span, vertical) == Last(span).box.High(vertical)
    ensures HullLow(span, vertical) <= HullHigh(span, vertical)
    ensures Between(span, vertical, HullLow(span, vertical), HullHigh(span, vertical))
  {
    var low, high := (c: OcrChar) => c.box.Low(vertical), (c: OcrChar) => -c.box.High(vertical);
    var least, most := HullLow(span, vertical), -HullHigh(span, vertical);
    assert forall i :: 0 <= i < |span| ==> least <= low(span[i]) && most <= high(span[i]);
  }

  /** The parts of a hull that reads forward are in order and inside it. */
  lemma PartsInOrder(out: seq<OcrChar>, span: seq<OcrChar>, vertical: bool)
    requires span != [] && out != [] && HullLow(span, vertical) <= HullHigh(span, vertical)
    requires forall i :: 0 <= i < |out| ==>
      && out[i].box.Low(vertical) == PartStart(span, vertical, i, |out|)
      && out[i].box.High(vertical) == PartStart(span, vertical, i + 1, |out|)
    ensures InOrder(out, vertical) && Between(out, vertical, HullLow(span, vertical), HullHigh(span, vertical))
  {
    PartEnds(span, vertical, |out|);
    hide HullLow, HullHigh, PartStart;
    forall i | 0 <= i < |out|
      ensures out[i].box.Low(vertical) <= out[i].box.High(vertical)
      ensures HullLow(span, vertical) <= out[i].box.Low(vertical)
        && out[i].box.High(vertical) <= HullHigh(span, vertical)
    {
      PartAscends(span, vertical, 0, i, |out|);
      PartAscends(span, vertical, i, i + 1, |out|);
      PartAscends(span, vertical, i + 1, |out|, |out|);
    }
    forall i, j | 0 <= i < j < |out|
      ensures out[i].box.High(vertical) <= out[j].box.Low(vertical)
    {
      PartAscends(span, vertical, i + 1, j, |out|);
    }
  }

  lemma PartAscends(span: seq<OcrChar>, vertical: bool, i: nat, j: nat, count: nat)
    requires span != [] && HullLow(span, vertical) <= HullHigh(span, vertical) && i <= j && count > 0
    ensures PartStart(span, vertical, i, count) <= PartStart(span, vertical, j, count)
  {
    hide HullLow, HullHigh;
    PartsAscend(HullHigh(span, vertical) - HullLow(span, vertical), i, j, count);
  }

  lemma ReplacementInOrder(replace: seq<CodePoint>, span: seq<OcrChar>, vertical: bool)
    requires span != [] && InOrder(span, vertical)
    ensures var out := Replacement(replace, span, vertical);
      InOrder(out, vertical) && Between(out, vertical, span[0].box.Low(vertical), Last(span).box.High(vertical))
  {
    hide HullLow, HullHigh, PartStart;
    HullOfOrdered(span, vertical);
    if |replace| != |span| && replace != [] {
      PartsInOrder(Replacement(replace, span, vertical), span, vertical);
    }
  }

  /** Boxes in order, then boxes in order at or behind where the first ones end. */
  lemma OrderedConcat(front: seq<OcrChar>, back: seq<OcrChar>, vertical: bool, low: int, middle: int, high: int)
    requires InOrder(front, vertical) && InOrder(back, vertical) && low <= middle <= high
    requires Between(front, vertical, low, middle) && Between(back, vertical, middle, high)
    ensures InOrder(front + back, vertical) && Between(front + back, vertical, low, high)
  {
  }

  /** A stretch of a line of boxes in order. */
  lemma StretchInOrder(chars: seq<OcrChar>, vertical: bool, pos: nat, end: nat, high: int)
    requires InOrder(chars, vertical) && Between(chars, vertical, HullStart(chars, vertical), high)
    requires pos < end <= |chars|
    ensures var low, middle := chars[pos].box.Low(vertical), chars[end - 1].box.High(vertical);
      && InOrder(chars[pos..end], vertical) && Between(chars[pos..end], vertical, low, middle)
      && low <= middle <= high && (end < |chars| ==> middle <= chars[end].box.Low(vertical))
  {
  }

  /** Boxes in order between two places, seen from further out; and no boxes at all. */
  lemma Widened(chars: seq<OcrChar>, vertical: bool, low: int, inner: int, high: int)
    requires chars == [] || (InOrder(chars, vertical) && Between(chars, vertical, inner, high) && low <= inner)
    ensures InOrder(chars, vertical) && Between(chars, vertical, low, high)
  {
  }

  lemma {:induction false} PassKeepsOrder(rule: Rule, chars: seq<OcrChar>, vertical: bool, unicode: Unicode, pos: nat,
                                          high: int)
    requires InOrder(chars, vertical) && Between(chars, vertical, HullStart(chars, vertical), high) && pos < |chars|
    requires Pass(rule, chars, vertical, unicode, pos).Some?
    ensures var out := Pass(rule, chars, vertical, unicode, pos).value;
      InOrder(out, vertical) && Between(out, vertical, chars[pos].box.Low(vertical), high)
    decreases |chars| - pos
  {
    hide Matches, Replacement, InOrder, Between, HullStart, Pass;
    var end := if Matches(rule, chars, pos, unicode) then pos + |rule.find| else pos + 1;
    PassSteps(rule, chars, vertical, unicode, pos);
    var span, middle := chars[pos..end], chars[end - 1].box.High(vertical);
    StretchInOrder(chars, vertical, pos, end, high);
    var front := if Matches(rule, chars, pos, unicode) then Replacement(rule.replace, span, vertical) else [chars[pos]];
    if Matches(rule, chars, pos, unicode) {
      ReplacementInOrder(rule.replace, span, vertical);
    } else {
      assert front == span;
    }
    var back := Pass(rule, chars, vertical, unicode, end).value;
    if end < |chars| {
      PassKeepsOrder(rule, chars, vertical, unicode, end, high);
      Widened(back, vertical, middle, chars[end].box.Low(vertical), high);
    } else {
      Widened(back, vertical, middle, middle, high);
    }
    OrderedConcat(front, back, vertical, chars[pos].box.Low(vertical), middle, high);
  }

  /** Where a line of boxes begins. */
  ghost function HullStart(chars: seq<OcrChar>, vertical: bool): int {
    if chars == [] then 0 else chars[0].box.Low(vertical)
  }

  lemma PassSteps(rule: Rule, chars: seq<OcrChar>, vertical: bool, unicode: Unicode, pos: nat)
    requires pos < |chars| && Pass(rule, chars, vertical, unicode, pos).Some?
    ensures Matches(rule, chars, pos, unicode) ==> rule.find != [] && pos + |rule.find| <= |chars|
    ensures var end := if Matches(rule, chars, pos, unicode) then pos + |rule.find| else pos + 1;
      && Pass(rule, chars, vertical, unicode, end).Some?
      && Pass(rule, chars, vertical, unicode, pos).value ==
           (if Matches(rule, chars, pos, unicode) then Replacement(rule.replace, chars[pos..end], vertical)
            else [chars[pos]]) + Pass(rule, chars, vertical, unicode, end).value
      && (end == |chars| ==> Pass(rule, chars, vertical, unicode, end).value == [])
  {
  }

  /** Boxes in order along the reading axis stay in order through all rules, within the line they began
      in. */
  lemma {:induction false} CorrectedKeepsOrder(rules: seq<Rule>, chars: seq<OcrChar>, vertical: bool, unicode: Unicode,
                                               low: int, high: int)
    requires InOrder(chars, vertical) && Between(chars, vertical, low, high)
    requires Corrected(rules, chars, vertical, unicode).Some?
    ensures var out := Corrected(rules, chars, vertical, unicode).value;
      InOrder(out, vertical) && Between(out, vertical, low, high)
    decreases |rules|
  {
    if rules != [] {
      CorrectedKeepsOrder(Front(rules), chars, vertical, unicode, low, high);
      var before := Corrected(Front(rules), chars, vertical, unicode).value;
      if !Skipped(Last(rules), vertical) && before != [] {
        PassKeepsOrder(Last(rules), before, vertical, unicode, 0, high);
      }
    }
  }

  // ---------------------------------------------------------------- confidences and failures

  ghost predicate HasConfidence(chars: seq<OcrChar>, confidence: real) {
    exists i :: 0 <= i < |chars| && chars[i].confidence == confidence
  }

  ghost predicate ConfidencesFrom(out: seq<OcrChar>, chars: seq<OcrChar>) {
    forall i :: 0 <= i < |out| ==> HasConfidence(chars, out[i].confidence)
  }

  lemma ConfidencesThrough(out: seq<OcrChar>, middle: seq<OcrChar>, chars: seq<OcrChar>)
    requires ConfidencesFrom(out, middle) && ConfidencesFrom(middle, chars)
    ensures ConfidencesFrom(out, chars)
  {
    forall i | 0 <= i < |out|
      ensures HasConfidence(chars, out[i].confidence)
    {
      assert HasConfidence(middle, out[i].confidence);
    }
  }

  lemma {:induction false} PassConfidences(rule: Rule, chars: seq<OcrChar>, vertical: bool, unicode: Unicode, pos: nat)
    requires Pass(rule, chars, vertical, unicode, pos).Some?
    ensures ConfidencesFrom(Pass(rule, chars, vertical, unicode, pos).value, chars)
    decreases |chars| - pos
  {
    if pos < |chars| {
      hide Matches, ReplacedBox;
      PassSteps(rule, chars, vertical, unicode, pos);
      var end := if Matches(rule, chars, pos, unicode) then pos + |rule.find| else pos + 1;
      PassConfidences(rule, chars, vertical, unicode, end);
      if Matches(rule, chars, pos, unicode) {
        var span := chars[pos..end];
        var k :| 0 <= k < |span| && LeastConfidence(span) == span[k].confidence;
        assert span[k] == chars[pos + k];
      }
    }
  }

  /** Every confidence in the result is one of the input's. */
  lemma {:induction false} CorrectedConfidences(rules: seq<Rule>, chars: seq<OcrChar>, vertical: bool, unicode: Unicode)
    requires Corrected(rules, chars, vertical, unicode).Some?
    ensures ConfidencesFrom(Corrected(rules, chars, vertical, unicode).value, chars)
    decreases |rules|
  {
    if rules != [] {
      CorrectedConfidences(Front(rules), chars, vertical, unicode);
      var before := Corrected(Front(rules), chars, vertical, unicode).value;
      if !Skipped(Last(rules), vertical) {
        PassConfidences(Last(rules), before, vertical, unicode, 0);
        ConfidencesThrough(Corrected(rules, chars, vertical, unicode).value, before, chars);
      }
    }
  }

  /** A pass fails exactly when an empty find matches in front of some character. */
  lemma {:induction false} PassFailsExactly(rule: Rule, chars: seq<OcrChar>, vertical: bool, unicode: Unicode, pos: nat)
    ensures Pass(rule, chars, vertical, unicode, pos).None? <==>
      rule.find == [] && exists at :: pos <= at < |chars| && Matches(rule, chars, at, unicode)
    decreases |chars| - pos
  {
    hide Matches;
    if pos < |chars| {
      if !Matches(rule, chars, pos, unicode) {
        PassFailsExactly(rule, chars, vertical, unicode, pos + 1);
      } else if rule.find != [] {
        PassFailsExactly(rule, chars, vertical, unicode, pos + |rule.find|);
      }
    }
  }

  /** Rules that find something are always applied. */
  lemma {:induction false} CorrectedNeverFails(rules: seq<Rule>, chars: seq<OcrChar>, vertical: bool, unicode: Unicode)
    requires forall i :: 0 <= i < |rules| ==> rules[i].find != []
    ensures Corrected(rules, chars, vertical, unicode).Some?
    decreases |rules|
  {
    if rules != [] {
      CorrectedNeverFails(Front(rules), chars, vertical, unicode);
      PassFailsExactly(Last(rules), Corrected(Front(rules), chars, vertical, unicode).value, vertical, unicode, 0);
    }
  }
}
