/** Texts that end before their elements do: what the RSAKeyValue scan answers when elements are left open. */
module XmlOpenElements {
  import opened TextModel
  import opened XmlRsaScan

  /** A closed node, a closing tag that closes nothing, or the opening tag of an element that stays open. */
  datatype Part = Closed(node: Node) | Stray(name: Text) | Opens(tag: Text, header: seq<Piece>)

  /** How the text ends: after the last part, or with an opening tag whose header does not end. */
  datatype Ending = Complete | CutTag(name: Text, header: Text) {
    ghost predicate Valid() {
      CutTag? ==>
        && IsXmlName(name) && LT !in header && header != [] && EndsName(header[0])
        && forall end, pieces :: !IsHeader(header, 0, end, pieces)
    }

    function Print(): Text { if CutTag? then [LT] + name + header else [] }
  }

  /** `innermost` is the last open element with a recognised name. */
  predicate PartsValid(parts: seq<Part>, innermost: Option<Text>) {
    parts == [] ||
    match parts[0]
    case Closed(node) => node.Valid() && PartsValid(parts[1..], innermost)
    case Stray(name) =>
      && IsXmlName(name) && (IsName(name) ==> innermost != Some(name))
      && PartsValid(parts[1..], innermost)
    case Opens(tag, header) =>
      && IsXmlName(tag) && HeaderValid(header, false)
      && PartsValid(parts[1..], if IsName(tag) then Some(tag) else innermost)
  }

  function PrintPart(part: Part): Text {
    match part
    case Closed(node) => Print(node)
    case Stray(name) => CloseTag(name)
    case Opens(tag, header) => OpenTag(tag, PrintPieces(header))
  }

  function PrintParts(parts: seq<Part>, ending: Ending): Text {
    if parts == [] then ending.Print() else PrintPart(parts[0]) + PrintParts(parts[1..], ending)
  }

  /**
   * The search: a closed node shows a private member, an open element is a private member inside an RSAKeyValue with a
   * nonempty rest of the text as its body, or the tag that is cut off is an RSAKeyValue or inside one.
   */
  predicate PartsShow(parts: seq<Part>, ending: Ending, insideRsa: bool) {
    if parts == [] then
      ending.CutTag? && IsName(ending.name) && (insideRsa || LocalName(ending.name) == RSA_KEY_VALUE)
    else
      match parts[0]
      case Closed(node) => Shows(node, insideRsa) || PartsShow(parts[1..], ending, insideRsa)
      case Stray(_) => PartsShow(parts[1..], ending, insideRsa)
      case Opens(tag, _) =>
        if IsName(tag) then
          || (insideRsa && LocalName(tag) in PRIVATE_MEMBERS && BodyIsNonempty(PrintParts(parts[1..], ending)))
          || PartsShow(parts[1..], ending, insideRsa || LocalName(tag) == RSA_KEY_VALUE)
        else PartsShow(parts[1..], ending, insideRsa)
  }

  /** How deep elements with recognised names nest, open ones included. */
  function PartsDepth(parts: seq<Part>): nat {
    if parts == [] then 0
    else
      match parts[0]
      case Closed(node) => Max(Depth(node), PartsDepth(parts[1..]))
      case Stray(_) => PartsDepth(parts[1..])
      case Opens(tag, _) => (if IsName(tag) then 1 else 0) + PartsDepth(parts[1..])
  }

  // ----- The scan over such texts -----

  function Innermost(frames: seq<Frame>): Option<Text> {
    if frames == [] then None else Some(frames[|frames| - 1].tag)
  }

  /** What the scan answers when the parts and the ending come after `frames`. */
  ghost predicate Answer(value: Text, parts: seq<Part>, ending: Ending, frames: seq<Frame>) {
    PartsShow(parts, ending, InsideRsa(frames)) || |frames| + PartsDepth(parts) > MAX_OPEN || UnclosedHit(value, frames)
  }

  lemma UnclosedHitOfLast(value: Text, frames: seq<Frame>, frame: Frame, body: Text)
    requires frame.bodyStart <= |value| && value[frame.bodyStart..] == body
    ensures UnclosedHit(value, frames + [frame]) <==>
      UnclosedHit(value, frames) || (frame.isPrivate && BodyIsNonempty(body))
  {
    var all := frames + [frame];
    assert all[|frames|] == frame;
    if UnclosedHit(value, frames) {
      var k :| 0 <= k < |frames|
        && frames[k].isPrivate && frames[k].bodyStart <= |value| && BodyIsNonempty(value[frames[k].bodyStart..]);
      assert all[k] == frames[k];
    }
  }

  lemma ScanPastStray(value: Text, i: nat, name: Text, frames: seq<Frame>, stop: nat)
    requires IsXmlName(name) && (IsName(name) ==> Innermost(frames) != Some(name))
    requires At(value, i, CloseTag(name)) && stop == i + |CloseTag(name)|
    ensures stop <= |value| && ScanFrom(value, i, frames) == ScanFrom(value, stop, frames)
  {
    if IsName(name) {
      ReadCloseTag(value, i, name);
      ScanPastTag(value, i, Closing(i, name), stop, frames, frames, false);
    } else {
      ScanOverUnknownClosing(value, i, name, frames, stop);
    }
  }

  lemma HeaderInText(value: Text, start: nat, header: Text, end: nat, pieces: seq<Piece>)
    requires start <= |value| && value[start..] == header && IsHeader(value, start, end, pieces)
    ensures IsHeader(header, 0, end - start, pieces)
  {
    assert header[..end - start] == value[start..end];
    assert header[end - start] == value[end];
  }

  lemma CutHeaderHasNoEnd(value: Text, start: nat, header: Text)
    requires start <= |value| && value[start..] == header
    requires forall end, pieces :: !IsHeader(header, 0, end, pieces)
    ensures XmlTagHeaderEnd(value, start) == None
  {
    var end := XmlTagHeaderEnd(value, start);
    if end.Some? {
      HeaderEndMeetsGrammar(value, start, end.value);
      var pieces :| IsHeader(value, start, end.value, pieces);
      HeaderInText(value, start, header, end.value, pieces);
    }
  }

  lemma CutTagStandsAt(value: Text, i: nat, name: Text, header: Text, end: nat)
    requires At(value, i, [LT] + name + header) && |value| == i + |[LT] + name + header|
    requires header != [] && EndsName(header[0]) && end == i + 1 + |name|
    ensures At(value, i, [LT] + name) && end < |value| && EndsName(value[end]) && value[end..] == header
    ensures LT !in header ==> NoLtBetween(value, end, |value|)
  {
    AtParts(value, i, [LT] + name, header);
    AtSlice(value, end, header);
    if LT !in header {
      NoLtInText(value, end, header);
    }
  }

  lemma ScanOverCutTag(value: Text, i: nat, ending: Ending, frames: seq<Frame>)
    requires ending.Valid() && ending.CutTag? && At(value, i, ending.Print()) && |value| == i + |ending.Print()|
    ensures ScanFrom(value, i, frames) == (PartsShow([], ending, InsideRsa(frames)) || UnclosedHit(value, frames))
  {
    var CutTag(name, header) := ending;
    var end, tag := i + 1 + |name|, Opening(i, name);
    CutTagStandsAt(value, i, name, header, end);
    if IsName(name) {
      TagOfName(value, i, name, false);
      CutHeaderHasNoEnd(value, end, header);
      ScanPastTag(value, i, tag, |value|, frames, frames, PartsShow([], ending, InsideRsa(frames)));
    } else {
      NoTagAtOtherName(value, i, name, false);
      XmlNameHasNoLt(name);
      NoLtAfterMark(value, i, [LT], name, header);
      ScanOverNoTag(value, i, |value|, frames);
    }
  }

  lemma {:induction false} ScanOverEnding(value: Text, i: nat, ending: Ending, frames: seq<Frame>)
    requires ending.Valid() && At(value, i, ending.Print()) && |value| == i + |ending.Print()| && |frames| <= MAX_OPEN
    ensures ScanFrom(value, i, frames) == Answer(value, [], ending, frames)
  {
    if ending.CutTag? {
      ScanOverCutTag(value, i, ending, frames);
    }
  }

  /** A part that leaves no recognised element open. */
  lemma ScanOverClosedPart(value: Text, i: nat, part: Part, frames: seq<Frame>, stop: nat)
    requires PartsValid([part], Innermost(frames)) && |frames| <= MAX_OPEN && !(part.Opens? && IsName(part.tag))
    requires At(value, i, PrintPart(part)) && stop == i + |PrintPart(part)|
    ensures stop <= |value| && ScanFrom(value, i, frames) ==
      ((part.Closed? && (Shows(part.node, InsideRsa(frames)) || |frames| + Depth(part.node) > MAX_OPEN))
        || ScanFrom(value, stop, frames))
  {
    match part
    case Closed(node) => ScanOverNode(value, i, node, frames, stop);
    case Stray(name) => ScanPastStray(value, i, name, frames, stop);
    case Opens(tag, header) => ScanOverUnknownOpening(value, i, tag, header, frames, stop);
  }

  lemma AnswerAfterClosedPart(value: Text, parts: seq<Part>, ending: Ending, frames: seq<Frame>, answer: bool)
    requires parts != [] && !(parts[0].Opens? && IsName(parts[0].tag))
    requires answer ==
      ((parts[0].Closed? && (Shows(parts[0].node, InsideRsa(frames)) || |frames| + Depth(parts[0].node) > MAX_OPEN))
        || Answer(value, parts[1..], ending, frames))
    ensures answer == Answer(value, parts, ending, frames)
  {
  }

  lemma ClosedPartThenRest(
      value: Text, i: nat, parts: seq<Part>, ending: Ending, frames: seq<Frame>, stop: nat)
    requires parts != [] && !(parts[0].Opens? && IsName(parts[0].tag))
    requires PartsValid(parts, Innermost(frames)) && |frames| <= MAX_OPEN
    requires At(value, i, PrintPart(parts[0])) && stop == i + |PrintPart(parts[0])|
    requires ScanFrom(value, stop, frames) == Answer(value, parts[1..], ending, frames)
    ensures ScanFrom(value, i, frames) == Answer(value, parts, ending, frames)
  {
    ScanOverClosedPart(value, i, parts[0], frames, stop);
    AnswerAfterClosedPart(value, parts, ending, frames, ScanFrom(value, i, frames));
  }

  lemma {:induction false} ScanOverOpenPart(
      value: Text, i: nat, parts: seq<Part>, ending: Ending, frames: seq<Frame>, start: nat)
    requires parts != [] && parts[0].Opens? && IsName(parts[0].tag)
    requires PartsValid(parts, Innermost(frames)) && ending.Valid() && |frames| <= MAX_OPEN
    requires At(value, i, PrintPart(parts[0])) && start == i + |PrintPart(parts[0])|
    requires At(value, start, PrintParts(parts[1..], ending)) && |value| == start + |PrintParts(parts[1..], ending)|
    ensures ScanFrom(value, i, frames) == Answer(value, parts, ending, frames)
    decreases |parts|, 0
  {
    var Opens(tag, header) := parts[0];
    var rest := PrintParts(parts[1..], ending);
    var frame := NewFrame(tag, start, InsideRsa(frames));
    var all := frames + [frame];
    ScanOverPrintedOpening(value, i, header, frames, start, frame);
    if |frames| < MAX_OPEN {
      assert Innermost(all) == Some(tag) && InsideRsa(all) == frame.insideRsa;
      ScanOverParts(value, start, parts[1..], ending, all);
      AtSlice(value, start, rest);
      UnclosedHitOfLast(value, frames, frame, rest);
    }
  }

  /** Reading such a text answers as the search does, or as the elements that were open before it do. */
  lemma {:induction false} ScanOverParts(value: Text, i: nat, parts: seq<Part>, ending: Ending, frames: seq<Frame>)
    requires PartsValid(parts, Innermost(frames)) && ending.Valid() && |frames| <= MAX_OPEN
    requires At(value, i, PrintParts(parts, ending)) && |value| == i + |PrintParts(parts, ending)|
    ensures ScanFrom(value, i, frames) == Answer(value, parts, ending, frames)
    decreases |parts|, 1
  {
    if parts == [] {
      ScanOverEnding(value, i, ending, frames);
    } else {
      var stop := i + |PrintPart(parts[0])|;
      AtParts(value, i, PrintPart(parts[0]), PrintParts(parts[1..], ending));
      if parts[0].Opens? && IsName(parts[0].tag) {
        ScanOverOpenPart(value, i, parts, ending, frames, stop);
      } else {
        ScanOverParts(value, stop, parts[1..], ending, frames);
        ClosedPartThenRest(value, i, parts, ending, frames, stop);
      }
    }
  }

  /**
   * On a text of closed nodes, stray closing tags and elements left open, which may end inside a tag, the scan answers
   * exactly as the search, and yes when recognised elements nest more than 256 deep.
   */
  lemma ScanMeetsSearchOfParts(parts: seq<Part>, ending: Ending)
    requires PartsValid(parts, None) && ending.Valid()
    ensures ScanFrom(PrintParts(parts, ending), 0, []) <==>
      PartsShow(parts, ending, false) || PartsDepth(parts) > MAX_OPEN
  {
    var text := PrintParts(parts, ending);
    StandsInside(text, 0);
    assert text[0..] == text;
    ScanOverParts(text, 0, parts, ending, []);
  }
}
