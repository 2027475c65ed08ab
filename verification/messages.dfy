/** The message list: the `**bold**` segmenter applied to each message's
    text, the choice between parsed text and the typing indicator, and the
    list's replacement on every history change. */
module Messages {
  import opened Options
  import opened JsText

  datatype Message = Message(role: string, content: string)

  predicate NoStar(s: string)
  {
    forall i :: 0 <= i < |s| ==> s[i] != '*'
  }

  /** A whole-string match of `^\*\*([^*]+)\*\*$`: two stars, a non-empty
      run without stars, two stars. */
  predicate IsBoldToken(t: string)
  {
    |t| >= 5 && t[..2] == "**" && t[|t| - 2..] == "**" && NoStar(t[2..|t| - 2])
  }

  /** The captured group of a bold token. */
  function Inner(t: string): string
    requires IsBoldToken(t)
  {
    t[2..|t| - 2]
  }

  /** Index of the first star at or after j, or |s| if there is none. */
  function FirstStar(s: string, j: nat): (k: nat)
    requires j <= |s|
    ensures j <= k <= |s|
    ensures k < |s| ==> s[k] == '*'
    ensures forall i :: j <= i < k ==> s[i] != '*'
    decreases |s| - j
  {
    if j == |s| || s[j] == '*' then j else FirstStar(s, j + 1)
  }

  /** The pattern `\*\*[^*]+\*\*` tried at position i: the greedy `[^*]+`
      runs up to the next star, so there is at most one match, and this is
      its end. */
  function MatchAt(s: string, i: nat): (r: Option<nat>)
    requires i <= |s|
    ensures r.Some? ==> i + 5 <= r.value <= |s| && IsBoldToken(s[i..r.value])
  {
    if i + 2 <= |s| && s[i] == '*' && s[i + 1] == '*' then
      var k := FirstStar(s, i + 2);
      if k > i + 2 && k + 1 < |s| && s[k + 1] == '*' then
        BoldTokenAt(s, i, k);
        Some(k + 2)
      else None
    else None
  }

  /** Two stars at i, a star-free run up to the star at k, and a star after it
      make a bold token. */
  lemma BoldTokenAt(s: string, i: nat, k: nat)
    requires i + 2 < k && k + 1 < |s|
    requires s[i] == '*' && s[i + 1] == '*' && s[k] == '*' && s[k + 1] == '*'
    requires forall j :: i + 2 <= j < k ==> s[j] != '*'
    ensures IsBoldToken(s[i..k + 2])
  {
    var t := s[i..k + 2];
    assert t[..2] == [s[i], s[i + 1]] == "**";
    assert t[|t| - 2..] == [s[k], s[k + 1]] == "**";
    var inner := t[2..|t| - 2];
    forall j | 0 <= j < |inner|
      ensures inner[j] != '*'
    {
      assert inner[j] == s[i + 2 + j];
    }
  }

  /** A bold token sitting at position i of s is what the pattern matches there. */
  lemma BoldTokenMatches(s: string, i: nat, e: nat)
    requires i <= e <= |s| && IsBoldToken(s[i..e])
    ensures MatchAt(s, i) == Some(e)
  {
    var t := s[i..e];
    assert s[i] == t[0] && s[i + 1] == t[1];
    forall j | i + 2 <= j < e - 2
      ensures s[j] != '*'
    {
      assert s[j] == t[2..|t| - 2][j - i - 2];
    }
    assert s[e - 2] == t[|t| - 2..][0] && s[e - 1] == t[|t| - 2..][1];
    var k := FirstStar(s, i + 2);
    assert k == e - 2;
  }

  /** `content.split(/(\*\*[^*]+\*\*)/g)` as ECMAScript's split runs it:
      p is the end of the last match, q the position being tried. Each match
      adds the text before it and the captured match itself. */
  function SplitFrom(s: string, p: nat, q: nat): seq<string>
    requires p <= q <= |s|
    decreases |s| - q
  {
    if q == |s| then [s[p..]]
    else
      match MatchAt(s, q)
      case Some(e) => [s[p..q], s[q..e]] + SplitFrom(s, e, e)
      case None => SplitFrom(s, p, q + 1)
  }

  function Split(s: string): seq<string>
  {
    SplitFrom(s, 0, 0)
  }

  function Concat(parts: seq<string>): string
  {
    if parts == [] then "" else parts[0] + Concat(parts[1..])
  }

  /** Joining the split parts gives back the input. */
  lemma {:induction false} SplitFromRoundTrip(s: string, p: nat, q: nat)
    requires p <= q <= |s|
    ensures Concat(SplitFrom(s, p, q)) == s[p..]
    decreases |s| - q
  {
    if q == |s| {
      assert Concat([s[p..]]) == s[p..] + Concat([]);
    } else {
      match MatchAt(s, q)
      case Some(e) =>
        SplitFromRoundTrip(s, e, e);
        var rest := SplitFrom(s, e, e);
        assert ([s[p..q], s[q..e]] + rest)[1..] == [s[q..e]] + rest;
        assert ([s[q..e]] + rest)[1..] == rest;
        assert s[q..] == s[q..e] + s[e..];
        assert s[p..] == s[p..q] + s[q..];
      case None =>
        SplitFromRoundTrip(s, p, q + 1);
    }
  }

  lemma SplitRoundTrip(s: string)
    ensures Concat(Split(s)) == s
  {
    SplitFromRoundTrip(s, 0, 0);
  }

  /** The parts alternate: text between matches at even positions, captured
      matches at odd ones; a capture is always a bold token and a part
      between matches never is one. */
  lemma {:induction false} SplitFromShape(s: string, p: nat, q: nat)
    requires p <= q <= |s|
    requires forall j :: p <= j < q ==> MatchAt(s, j).None?
    ensures |SplitFrom(s, p, q)| % 2 == 1
    ensures forall i :: 0 <= i < |SplitFrom(s, p, q)| ==>
      (i % 2 == 1 <==> IsBoldToken(SplitFrom(s, p, q)[i]))
    decreases |s| - q
  {
    if q == |s| {
      PlainNotBold(s, p, q);
      assert s[p..q] == s[p..];
    } else {
      match MatchAt(s, q)
      case Some(e) =>
        SplitFromShape(s, e, e);
        PlainNotBold(s, p, q);
        PrependParts(s[p..q], s[q..e], SplitFrom(s, e, e));
      case None =>
        SplitFromShape(s, p, q + 1);
    }
  }

  /** Putting a non-token and a token in front of an alternating list keeps
      it alternating. */
  lemma PrependParts(plain: string, token: string, rest: seq<string>)
    requires !IsBoldToken(plain) && IsBoldToken(token)
    requires |rest| % 2 == 1
    requires forall i :: 0 <= i < |rest| ==> (i % 2 == 1 <==> IsBoldToken(rest[i]))
    ensures var parts := [plain, token] + rest;
      |parts| % 2 == 1 &&
      forall i :: 0 <= i < |parts| ==> (i % 2 == 1 <==> IsBoldToken(parts[i]))
  {
    var parts := [plain, token] + rest;
    forall i | 2 <= i < |parts|
      ensures parts[i] == rest[i - 2] && (i % 2 == 1 <==> (i - 2) % 2 == 1)
    {
    }
  }

  /** Text that lies between matches is not itself a bold token. */
  lemma PlainNotBold(s: string, p: nat, q: nat)
    requires p <= q <= |s|
    requires forall j :: p <= j < q ==> MatchAt(s, j).None?
    ensures !IsBoldToken(s[p..q])
  {
    if IsBoldToken(s[p..q]) {
      BoldTokenMatches(s, p, q);
      assert false;
    }
  }

  /** Where part i starts, measured from the start of the split text. */
  function Offset(parts: seq<string>, i: nat): nat
    requires i <= |parts|
  {
    |Concat(parts[..i])|
  }

  lemma {:induction false} ConcatAppend(x: seq<string>, y: seq<string>)
    ensures Concat(x + y) == Concat(x) + Concat(y)
  {
    if x == [] {
      assert x + y == y;
    } else {
      assert (x + y)[1..] == x[1..] + y;
      ConcatAppend(x[1..], y);
    }
  }

  /** Offsets past a leading pair of parts are shifted by the pair's length. */
  lemma OffsetAfterPair(a: string, b: string, rest: seq<string>, i: nat)
    requires 2 <= i <= |rest| + 2
    ensures Offset([a, b] + rest, i) == |a| + |b| + Offset(rest, i - 2)
  {
    var parts := [a, b] + rest;
    assert parts[..i] == [a, b] + rest[..i - 2];
    ConcatAppend([a, b], rest[..i - 2]);
    assert Concat([a, b]) == a + Concat([b]);
    assert Concat([b]) == b + Concat([]);
  }

  /** The regex is tried at every position and the first match wins: no
      match starts inside a part between matches (an even part), so the
      captured runs are the leftmost ones. */
  lemma {:induction false} NoMatchInPlain(s: string, p: nat, q: nat, i: nat, j: nat)
    requires p <= q <= |s|
    requires forall k :: p <= k < q ==> MatchAt(s, k).None?
    requires i < |SplitFrom(s, p, q)| && i % 2 == 0
    requires p + Offset(SplitFrom(s, p, q), i) <= j < p + Offset(SplitFrom(s, p, q), i + 1)
    requires j < |s|
    ensures MatchAt(s, j).None?
    decreases |s| - q
  {
    var parts := SplitFrom(s, p, q);
    if q == |s| {
      assert parts[..1] == [s[p..]];
      assert Concat([s[p..]]) == s[p..] + Concat([]);
    } else {
      match MatchAt(s, q)
      case Some(e) =>
        var rest := SplitFrom(s, e, e);
        assert parts == [s[p..q], s[q..e]] + rest;
        if i == 0 {
          assert parts[..0] == [];
          assert parts[..1] == [s[p..q]];
          assert Concat([s[p..q]]) == s[p..q] + Concat([]);
        } else {
          OffsetAfterPair(s[p..q], s[q..e], rest, i);
          OffsetAfterPair(s[p..q], s[q..e], rest, i + 1);
          NoMatchInPlain(s, e, e, i - 2, j);
        }
      case None =>
        NoMatchInPlain(s, p, q + 1, i, j);
    }
  }

  /** The split of any string: an odd number of parts that join back to the
      string, with the captured bold tokens exactly at the odd positions and
      no match starting inside any other part. */
  lemma SplitShape(s: string)
    ensures |Split(s)| % 2 == 1
    ensures Concat(Split(s)) == s
    ensures forall i :: 0 <= i < |Split(s)| ==> (i % 2 == 1 <==> IsBoldToken(Split(s)[i]))
    ensures forall i, j ::
      (0 <= i < |Split(s)| && i % 2 == 0 &&
       Offset(Split(s), i) <= j < Offset(Split(s), i + 1) && j < |s|) ==> MatchAt(s, j).None?
  {
    SplitFromShape(s, 0, 0);
    SplitRoundTrip(s);
    forall i, j |
      0 <= i < |Split(s)| && i % 2 == 0 &&
      Offset(Split(s), i) <= j < Offset(Split(s), i + 1) && j < |s|
      ensures MatchAt(s, j).None?
    {
      NoMatchInPlain(s, 0, 0, i, j);
    }
  }

  /** What one part renders as: a medium-weight span, a plain span, or nothing. */
  datatype Segment = Bold(text: string) | Plain(text: string) | Skip

  /** The per-part callback of the segmenter. */
  function Classify(part: string): (seg: Segment)
    ensures seg.Bold? <==> IsBoldToken(part) && !IsBlank(Inner(part))
    ensures seg.Bold? ==> seg.text == Inner(part) && seg.text != [] && NoStar(seg.text)
    ensures seg.Plain? <==> !IsBoldToken(part) && !IsBlank(part)
    ensures seg.Plain? ==> seg.text == part
  {
    if IsBoldToken(part) then
      var inner := part[2..|part| - 2];
      if inner == [] || Trim(inner) == "" then Skip else Bold(inner)
    else if Trim(part) == "" then Skip
    else Plain(part)
  }

  /** `parseHighlightedText`: null for empty, blank or `**` content,
      otherwise one segment per split part. */
  function ParseHighlightedText(content: string): (r: Option<seq<Segment>>)
    ensures r.None? <==> IsBlank(content) || Trim(content) == "**"
    ensures r.Some? ==> |r.value| == |Split(content)|
  {
    var parts := Split(content);
    if content == "" || Trim(content) == "" || Trim(content) == "**" then None
    else Some(seq(|parts|, i requires 0 <= i < |parts| => Classify(parts[i])))
  }

  /** A parsed message keeps the order of its parts: text between markers
      becomes a plain span (unchanged) or nothing, a marked run becomes a
      bold span of its inner text or nothing, and the parts the segments come
      from join back to the content. */
  lemma ParseSegments(content: string)
    requires ParseHighlightedText(content).Some?
    ensures var segs, parts := ParseHighlightedText(content).value, Split(content);
      Concat(parts) == content &&
      |segs| == |parts| && |segs| % 2 == 1 &&
      forall i :: 0 <= i < |segs| ==>
        (i % 2 == 0 ==> segs[i] == (if IsBlank(parts[i]) then Skip else Plain(parts[i]))) &&
        (i % 2 == 1 ==>
           (IsBoldToken(parts[i]) &&
            segs[i] == (if IsBlank(Inner(parts[i])) then Skip else Bold(Inner(parts[i])))))
  {
    SplitShape(content);
    var segs, parts := ParseHighlightedText(content).value, Split(content);
    forall i | 0 <= i < |segs|
      ensures i % 2 == 0 ==> segs[i] == (if IsBlank(parts[i]) then Skip else Plain(parts[i]))
      ensures i % 2 == 1 ==>
        (IsBoldToken(parts[i]) &&
         segs[i] == (if IsBlank(Inner(parts[i])) then Skip else Bold(Inner(parts[i]))))
    {
      assert segs[i] == Classify(parts[i]);
    }
  }

  /** What a message bubble shows. */
  datatype Body = Typing | Text(segments: Option<seq<Segment>>)

  function RenderBody(content: string): Body
  {
    if |Trim(content)| > 0 then Text(ParseHighlightedText(content)) else Typing
  }

  /** A blank message shows the typing indicator; any other message is
      parsed, and the parser's null only reaches a bubble for content that
      trims to `**`. */
  lemma RenderBodyCases(content: string)
    ensures RenderBody(content) == Typing <==> IsBlank(content)
    ensures RenderBody(content) == Text(None) <==> Trim(content) == "**"
    ensures !IsBlank(content) ==> RenderBody(content) == Text(ParseHighlightedText(content))
  {
  }

  /** The `HeylockMessages` component's list and its history subscription. */
  class MessageList {
    var messages: seq<Message>
    var subscribed: bool

    constructor ()
      ensures messages == [] && !subscribed
    {
      messages := [];
      subscribed := false;
    }

    /** Mount effect: seed from the agent's history if it is initialized,
      then subscribe to history changes. */
    method Mount(isInitialized: bool, messageHistory: seq<Message>)
      modifies this
      ensures messages == if isInitialized then messageHistory else old(messages)
      ensures subscribed
    {
      if isInitialized {
        messages := messageHistory;
      }
      subscribed := true;
    }

    /** Every history change replaces the list wholesale. */
    method OnHistoryChange(messageHistory: seq<Message>)
      requires subscribed
      modifies this`messages
      ensures messages == messageHistory
    {
      messages := messageHistory;
    }

    /** Unmount: the subscription is dropped. */
    method Unmount()
      modifies this`subscribed
      ensures !subscribed
    {
      subscribed := false;
    }

    /** The bubbles, one per message in order. */
    function Bodies(): (bodies: seq<Body>)
      reads this
      ensures |bodies| == |messages|
      ensures forall i :: 0 <= i < |messages| ==>
        (bodies[i] == Typing <==> IsBlank(messages[i].content))
      ensures forall i :: 0 <= i < |messages| && !IsBlank(messages[i].content) ==>
        bodies[i] == Text(ParseHighlightedText(messages[i].content))
    {
      seq(|messages|, i requires 0 <= i < |messages| reads this => RenderBody(messages[i].content))
    }
  }
}
