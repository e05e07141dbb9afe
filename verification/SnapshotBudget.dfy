/** Text and node budgets of a page snapshot. */
module SnapshotBudget {
  import opened Options

  /** A code point, or a lone surrogate. */
  type CodePoint = c: nat | c < 0x110000

  type Text = seq<CodePoint>

  const TEXT_LIMIT: nat := 240

  /** Length in UTF-16 units. */
  function Units(c: CodePoint): nat {
    if c < 0x10000 then 1 else 2
  }

  /** Length in UTF-8; a lone surrogate is encoded as the replacement character. */
  function Bytes(c: CodePoint): (n: nat)
    ensures 1 <= n <= 4
  {
    if c < 0x80 then 1 else if c < 0x800 then 2 else if c < 0x10000 then 3 else 4
  }

  /** The encodings, as RFC 3629 and RFC 2781 define them. */
  function Utf8(c: CodePoint): seq<nat> {
    if c < 0x80 then [c]
    else if c < 0x800 then [0xC0 + c / 0x40, 0x80 + c % 0x40]
    else if 0xD800 <= c < 0xE000 then [0xEF, 0xBF, 0xBD]     // a lone surrogate
    else if c < 0x10000 then [0xE0 + c / 0x1000, 0x80 + c / 0x40 % 0x40, 0x80 + c % 0x40]
    else [0xF0 + c / 0x40000, 0x80 + c / 0x1000 % 0x40, 0x80 + c / 0x40 % 0x40, 0x80 + c % 0x40]
  }

  function Utf16(c: CodePoint): seq<nat> {
    if c < 0x10000 then [c] else [0xD800 + (c - 0x10000) / 0x400, 0xDC00 + (c - 0x10000) % 0x400]
  }

  lemma LengthsOfEncodings(c: CodePoint)
    ensures |Utf8(c)| == Bytes(c) && |Utf16(c)| == Units(c)
  {
  }

  function UnitLength(t: Text): nat {
    if t == [] then 0 else UnitLength(t[..|t| - 1]) + Units(t[|t| - 1])
  }

  function ByteLength(t: Text): nat {
    if t == [] then 0 else ByteLength(t[..|t| - 1]) + Bytes(t[|t| - 1])
  }

  /** The text, or nothing: an empty text counts as none. */
  function Given(t: Option<Text>): Text {
    match t
    case None => []
    case Some(s) => s
  }

  function Wrapped(t: Text): Option<Text> {
    if t == [] then None else Some(t)
  }

  predicate Fits(t: Text, used: nat, limit: nat) {
    used + ByteLength(t) <= limit && UnitLength(t) <= TEXT_LIMIT
  }

  /** The longest prefix that fits. */
  predicate IsCut(whole: Text, part: Text, used: nat, limit: nat) {
    && part <= whole && Fits(part, used, limit)
    && (part != whole ==> !Fits(whole[..|part| + 1], used, limit))
  }

  /** Nothing longer fits either. */
  lemma {:induction false} LongerDoesNotFit(whole: Text, part: Text, used: nat, limit: nat, n: nat)
    requires IsCut(whole, part, used, limit) && |part| < n <= |whole|
    ensures !Fits(whole[..n], used, limit)
    decreases n
  {
    if n > |part| + 1 {
      LongerDoesNotFit(whole, part, used, limit, n - 1);
      assert whole[..n][..n - 1] == whole[..n - 1];
    }
  }

  method Encode(value: Option<Text>, used: nat, limit: nat) returns (r: Option<Text>, usedAfter: nat, cut: bool)
    requires used <= limit
    ensures IsCut(Given(value), Given(r), used, limit) && r == Wrapped(Given(r))
    ensures usedAfter == used + ByteLength(Given(r)) <= limit
    ensures cut <==> Given(r) != Given(value)
  {
    var whole := Given(value);
    var result: Text := [];
    usedAfter, cut := used, false;
    ghost var units := 0;
    var length := 0;
    while |result| < |whole| && !cut
      invariant result <= whole && usedAfter == used + ByteLength(result) <= limit
      invariant length == UnitLength(result) <= TEXT_LIMIT
      invariant cut ==> |result| < |whole| && !Fits(whole[..|result| + 1], used, limit)
      decreases |whole| - |result|, !cut
    {
      var c := whole[|result|];
      ghost var longer := result + [c];
      assert longer[..|longer| - 1] == result && whole[..|result| + 1] == longer;
      if usedAfter + Bytes(c) > limit || length + Units(c) > TEXT_LIMIT {
        cut := true;
      } else {
        result := result + [c];
        usedAfter := usedAfter + Bytes(c);
        length := length + Units(c);
      }
    }
    r := Wrapped(result);
  }

  /** What a candidate offers for a node; what a node returns. */
  datatype Offer = Offer(ref: nat, role: Option<Text>, name: Option<Text>, value: Option<Text>, description: Option<Text>,
                         sensitive: bool, onScreen: bool)

  datatype Node = Node(ref: nat, role: Option<Text>, name: Option<Text>, value: Option<Text>, description: Option<Text>)

  /** The texts of a node in the order they are encoded; a sensitive value is never encoded. */
  function Wanted(o: Offer): seq<Text> {
    [Given(o.role), Given(o.name), if o.sensitive then [] else Given(o.value), Given(o.description)]
  }

  function Texts(n: Node): seq<Text> {
    [Given(n.role), Given(n.name), Given(n.value), Given(n.description)]
  }

  function AllWanted(offers: seq<Offer>): seq<Text> {
    if offers == [] then [] else AllWanted(offers[..|offers| - 1]) + Wanted(offers[|offers| - 1])
  }

  function AllTexts(nodes: seq<Node>): seq<Text> {
    if nodes == [] then [] else AllTexts(nodes[..|nodes| - 1]) + Texts(nodes[|nodes| - 1])
  }

  function TotalBytes(texts: seq<Text>): nat {
    if texts == [] then 0 else TotalBytes(texts[..|texts| - 1]) + ByteLength(texts[|texts| - 1])
  }

  /** Each text returned is the longest prefix of the one wanted that fits what is left when its turn comes. */
  predicate Cuts(wanted: seq<Text>, texts: seq<Text>, limit: nat) {
    && |wanted| == |texts|
    && forall i :: 0 <= i < |texts| ==> IsCut(wanted[i], texts[i], TotalBytes(texts[..i]), limit)
  }

  lemma CutsGrow(wanted: seq<Text>, texts: seq<Text>, limit: nat, w: Text, t: Text)
    requires Cuts(wanted, texts, limit) && IsCut(w, t, TotalBytes(texts), limit)
    ensures Cuts(wanted + [w], texts + [t], limit)
    ensures TotalBytes(texts + [t]) == TotalBytes(texts) + ByteLength(t)
    ensures texts + [t] == wanted + [w] <==> texts == wanted && t == w
  {
    var more := texts + [t];
    assert more[..|texts|] == texts;
    forall i | 0 <= i < |more| ensures IsCut((wanted + [w])[i], more[i], TotalBytes(more[..i]), limit) {
      assert i < |texts| ==> more[..i] == texts[..i];
    }
    if more == wanted + [w] {
      assert texts == more[..|texts|] == (wanted + [w])[..|texts|] == wanted;
      assert t == more[|texts|] == w;
    }
  }

  /** The four texts of one node. */
  method EncodeNode(offer: Offer, used: nat, limit: nat, ghost wanted: seq<Text>, ghost texts: seq<Text>)
    returns (node: Node, usedAfter: nat, cut: bool)
    requires used <= limit && used == TotalBytes(texts) && Cuts(wanted, texts, limit)
    ensures node.ref == offer.ref && (offer.sensitive ==> node.value == None)
    ensures Cuts(wanted + Wanted(offer), texts + Texts(node), limit)
    ensures usedAfter == TotalBytes(texts + Texts(node)) <= limit
    ensures cut <==> Texts(node) != Wanted(offer)
  {
    hide Cuts, IsCut, Fits, TotalBytes, ByteLength, UnitLength;
    var role, name, value, description, c0, c1, c2, c3;
    ghost var w := Wanted(offer);
    role, usedAfter, c0 := Encode(offer.role, used, limit);
    CutsGrow(wanted, texts, limit, w[0], Given(role));
    ghost var w1, t1 := wanted + [w[0]], texts + [Given(role)];
    name, usedAfter, c1 := Encode(offer.name, usedAfter, limit);
    CutsGrow(w1, t1, limit, w[1], Given(name));
    ghost var w2, t2 := w1 + [w[1]], t1 + [Given(name)];
    value, usedAfter, c2 := Encode(if offer.sensitive then None else offer.value, usedAfter, limit);
    CutsGrow(w2, t2, limit, w[2], Given(value));
    ghost var w3, t3 := w2 + [w[2]], t2 + [Given(value)];
    description, usedAfter, c3 := Encode(offer.description, usedAfter, limit);
    CutsGrow(w3, t3, limit, w[3], Given(description));
    node := Node(offer.ref, role, name, value, description);
    cut := c0 || c1 || c2 || c3;
    FourJoin(wanted, w);
    FourJoin(texts, Texts(node));
    SameFour(Texts(node), w);
  }

  lemma FourJoin(list: seq<Text>, four: seq<Text>)
    requires |four| == 4
    ensures list + [four[0]] + [four[1]] + [four[2]] + [four[3]] == list + four
  {
  }

  lemma SameFour(a: seq<Text>, b: seq<Text>)
    requires |a| == |b| == 4
    ensures a == b <==> a[0] == b[0] && a[1] == b[1] && a[2] == b[2] && a[3] == b[3]
  {
  }

  lemma SamePrefix<T>(a: seq<T>, b: seq<T>, c: seq<T>, d: seq<T>)
    requires |a| == |b|
    ensures a + c == b + d <==> a == b && c == d
  {
    if a + c == b + d {
      assert a == (a + c)[..|a|] && b == (b + d)[..|b|];
      assert c == (a + c)[|a|..] && d == (b + d)[|b|..];
    }
  }

  function Refs(nodes: seq<Node>): seq<nat> {
    seq(|nodes|, i requires 0 <= i < |nodes| => nodes[i].ref)
  }

  function OfferRefs(offers: seq<Offer>): seq<nat> {
    seq(|offers|, i requires 0 <= i < |offers| => offers[i].ref)
  }

  function InView(offers: seq<Offer>): nat {
    if offers == [] then 0 else InView(offers[..|offers| - 1]) + if offers[|offers| - 1].onScreen then 1 else 0
  }

  lemma {:induction false} SameShape(offers: seq<Offer>, nodes: seq<Node>)
    requires |offers| == |nodes|
    ensures |AllWanted(offers)| == |AllTexts(nodes)| == 4 * |nodes|
  {
    if nodes != [] {
      SameShape(offers[..|offers| - 1], nodes[..|nodes| - 1]);
    }
  }

  /** The omitted elements, counted: how many, and how many of them are on screen. */
  method CountInView(offers: seq<Offer>) returns (inView: nat)
    ensures inView == InView(offers)
  {
    inView := 0;
    var i := 0;
    while i < |offers|
      invariant i <= |offers| && inView == InView(offers[..i])
    {
      assert offers[..i + 1][..i] == offers[..i];
      inView := inView + if offers[i].onScreen then 1 else 0;
      i := i + 1;
    }
    assert offers[..i] == offers;
  }

  lemma WantedGrows(offers: seq<Offer>, n: nat)
    requires n < |offers|
    ensures AllWanted(offers[..n + 1]) == AllWanted(offers[..n]) + Wanted(offers[n])
  {
    assert offers[..n + 1][..n] == offers[..n];
  }

  lemma TextsGrow(nodes: seq<Node>, node: Node)
    ensures AllTexts(nodes + [node]) == AllTexts(nodes) + Texts(node)
  {
  }

  lemma RefsGrow(offers: seq<Offer>, nodes: seq<Node>, node: Node)
    requires |nodes| < |offers| && Refs(nodes) == OfferRefs(offers[..|nodes|]) && node.ref == offers[|nodes|].ref
    ensures Refs(nodes + [node]) == OfferRefs(offers[..|nodes| + 1])
  {
    forall i | 0 <= i < |nodes| ensures (nodes + [node])[i].ref == offers[i].ref {
      assert Refs(nodes)[i] == OfferRefs(offers[..|nodes|])[i];
    }
  }

  /** The first elements became nodes, with their texts cut to the budget; `used` counts their bytes. */
  predicate Returned(offers: seq<Offer>, nodes: seq<Node>, limit: nat, used: nat) {
    && |nodes| <= |offers| && Refs(nodes) == OfferRefs(offers[..|nodes|])
    && (forall i :: 0 <= i < |nodes| && offers[i].sensitive ==> nodes[i].value == None)
    && Cuts(AllWanted(offers[..|nodes|]), AllTexts(nodes), limit)
    && used == TotalBytes(AllTexts(nodes)) <= limit
  }

  predicate Uncut(offers: seq<Offer>, nodes: seq<Node>)
    requires |nodes| <= |offers|
  {
    AllTexts(nodes) == AllWanted(offers[..|nodes|])
  }

  lemma CutsCount(wanted: seq<Text>, texts: seq<Text>, limit: nat)
    requires Cuts(wanted, texts, limit)
    ensures |wanted| == |texts|
  {
  }

  lemma ReturnsOne(offers: seq<Offer>, nodes: seq<Node>, node: Node, limit: nat, used: nat, usedAfter: nat)
    requires Returned(offers, nodes, limit, used) && |nodes| < |offers|
    requires node.ref == offers[|nodes|].ref && (offers[|nodes|].sensitive ==> node.value == None)
    requires Cuts(AllWanted(offers[..|nodes|]) + Wanted(offers[|nodes|]), AllTexts(nodes) + Texts(node), limit)
    requires usedAfter == TotalBytes(AllTexts(nodes) + Texts(node)) <= limit
    ensures Returned(offers, nodes + [node], limit, usedAfter)
    ensures Uncut(offers, nodes + [node]) <==> Uncut(offers, nodes) && Texts(node) == Wanted(offers[|nodes|])
  {
    hide AllTexts, AllWanted, Texts, Wanted, TotalBytes, IsCut, Refs, OfferRefs, Cuts;
    var n := |nodes|;
    CutsCount(AllWanted(offers[..n]), AllTexts(nodes), limit);
    WantedGrows(offers, n);
    TextsGrow(nodes, node);
    RefsGrow(offers, nodes, node);
    SamePrefix(AllTexts(nodes), AllWanted(offers[..n]), Texts(node), Wanted(offers[n]));
  }

  /** Nodes are returned in selection order until a budget is used up. */
  method CollectNodes(offers: seq<Offer>, maxNodes: nat, maxTextBytes: nat)
    returns (nodes: seq<Node>, textBytes: nat, truncated: bool)
    ensures Returned(offers, nodes, maxTextBytes, textBytes) && |nodes| <= maxNodes
    ensures |nodes| < |offers| ==> |nodes| == maxNodes || textBytes == maxTextBytes
    ensures truncated <==> |nodes| < |offers| || !Uncut(offers, nodes)
  {
    nodes, textBytes, truncated := [], 0, false;
    assert AllWanted(offers[..0]) == [] && AllTexts([]) == [] && Refs([]) == OfferRefs(offers[..0]);
    assert Returned(offers, [], maxTextBytes, 0) && Uncut(offers, []);
    while |nodes| < |offers|
      invariant Returned(offers, nodes, maxTextBytes, textBytes) && |nodes| <= maxNodes
      invariant truncated <==> !Uncut(offers, nodes)
      decreases |offers| - |nodes|
    {
      if |nodes| >= maxNodes || textBytes >= maxTextBytes {
        truncated := true;
        break;
      }
      var node, used, cut := EncodeNode(offers[|nodes|], textBytes, maxTextBytes,
                                       AllWanted(offers[..|nodes|]), AllTexts(nodes));
      ReturnsOne(offers, nodes, node, maxTextBytes, textBytes, used);
      hide Returned, Uncut, Cuts, TotalBytes, Texts, Wanted;
      nodes, textBytes, truncated := nodes + [node], used, truncated || cut;
    }
  }

  /** A snapshot: the nodes, then the title. The counter is the number of UTF-8 bytes returned; the result is
      marked truncated exactly when an element or part of a text is missing. */
  method Collect(offers: seq<Offer>, maxNodes: nat, maxTextBytes: nat, title: Option<Text>)
    returns (nodes: seq<Node>, titleText: Option<Text>, textBytes: nat, truncated: bool, omittedInView: nat)
    ensures Returned(offers, nodes, maxTextBytes, TotalBytes(AllTexts(nodes))) && |nodes| <= maxNodes
    ensures |nodes| < |offers| ==> |nodes| == maxNodes || TotalBytes(AllTexts(nodes)) == maxTextBytes
    ensures IsCut(Given(title), Given(titleText), TotalBytes(AllTexts(nodes)), maxTextBytes)
    ensures textBytes == TotalBytes(AllTexts(nodes)) + ByteLength(Given(titleText)) <= maxTextBytes
    ensures truncated <==> |nodes| < |offers| || !Uncut(offers, nodes) || Given(titleText) != Given(title)
    ensures omittedInView == InView(offers[|nodes|..])
  {
    nodes, textBytes, truncated := CollectNodes(offers, maxNodes, maxTextBytes);
    assert textBytes == TotalBytes(AllTexts(nodes)) <= maxTextBytes;
    hide Returned, Uncut, IsCut, InView, TotalBytes, ByteLength;
    var cut;
    titleText, textBytes, cut := Encode(title, textBytes, maxTextBytes);
    truncated := truncated || cut;
    omittedInView := CountInView(offers[|nodes|..]);
  }
}
