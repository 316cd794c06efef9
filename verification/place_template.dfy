/** The hot-path encoder: cached byte sections spliced around the fields that change per order. */
module PlaceTemplate {
  import opened Bytes
  import opened Codec
  import opened Framing
  import opened PlaceOrder

  /** The cached contract section. */
  datatype ContractTemplate = ContractTemplate(bytes: bytes)

  function ContractFields(c: ContractRequest, ryu: F64 -> bytes): (fields: Message)
    ensures |fields| == 14
  {
    [
      Decimal(c.conId), c.symbol, c.secType, c.lastTradeDate, FormatF64(ryu, c.strike), c.right,
      c.multiplier, c.exchange, c.primaryExchange, c.currency, c.localSymbol, c.tradingClass,
      UNSET, // secIdType
      UNSET  // secId
    ]
  }

  /** The constants after the order body, a third at a time. */
  function EarlyConstants(): (fields: Message)
    ensures |fields| == 24
  {
    [
      Decimal(-1),                          // exemptCode
      Decimal(0),                           // ocaType
      UNSET,                                // rule80A
      UNSET,                                // settlingFirm
      EncodeBool(false),                    // allOrNone
      UNSET,                                // minQty
      UNSET,                                // percentOffset
      EncodeBool(false),                    // eTradeOnly
      EncodeBool(false),                    // firmQuoteOnly
      UNSET,                                // nbboPriceCap
      Decimal(0),                           // auctionStrategy
      UNSET,                                // startingPrice
      UNSET,                                // stockRefPrice
      UNSET,                                // delta
      UNSET,                                // stockRangeLower
      UNSET,                                // stockRangeUpper
      EncodeBool(false),                    // overridePercentageConstraints
      UNSET,                                // volatility
      UNSET,                                // volatilityType
      UNSET,                                // deltaNeutralOrderType
      UNSET,                                // deltaNeutralAuxPrice
      UNSET,                                // continuousUpdate
      UNSET,                                // referencePriceType
      UNSET                                 // trailStopPrice
    ]
  }

  function MiddleConstants(): (fields: Message)
    ensures |fields| == 24
  {
    [
      UNSET,                                // trailingPercent
      UNSET,                                // scaleInitLevelSize
      UNSET,                                // scaleSubsLevelSize
      UNSET,                                // scalePriceIncrement
      UNSET,                                // hedgeType
      UNSET,                                // optOutSmartRouting
      UNSET,                                // clearingAccount
      UNSET,                                // clearingIntent
      EncodeBool(false),                    // notHeld
      EncodeBool(false),                    // delta-neutral contract
      UNSET,                                // algoStrategy
      EncodeBool(false),                    // whatIf
      UNSET,                                // orderMiscOptions
      UNSET,                                // solicited
      EncodeBool(false),                    // randomizeSize
      EncodeBool(false),                    // randomizePrice
      UNSET,                                // referenceContractId
      EncodeBool(false),                    // isPeggedChangeAmountDecrease
      UNSET,                                // peggedChangeAmount
      UNSET,                                // referenceChangeAmount
      UNSET,                                // referenceExchangeId
      Decimal(0),                           // conditionsCount
      UNSET,                                // conditionsIgnoreRth
      UNSET                                 // conditionsCancelOrder
    ]
  }

  function LateConstants(): (fields: Message)
    ensures |fields| == 24
  {
    [
      UNSET,                                // adjustedOrderType
      UNSET,                                // triggerPrice
      UNSET,                                // lmtPriceOffset
      UNSET,                                // adjustedStopPrice
      UNSET,                                // adjustedStopLimitPrice
      UNSET,                                // adjustedTrailingAmount
      Decimal(0),                           // adjustableTrailingUnit
      UNSET,                                // extOperator
      UNSET,                                // softDollarTier.name
      UNSET,                                // softDollarTier.value
      UNSET,                                // cashQty
      UNSET,                                // mifid2DecisionMaker
      UNSET,                                // mifid2DecisionAlgo
      UNSET,                                // mifid2ExecutionTrader
      UNSET,                                // mifid2ExecutionAlgo
      EncodeBool(false),                    // dontUseAutoPriceForHedge
      EncodeBool(false),                    // isOmsContainer
      EncodeBool(false),                    // discretionaryUpToLimitPrice
      UNSET,                                // usePriceMgmtAlgo
      Decimal(0),                           // duration
      Decimal(0),                           // postToAts
      UNSET,                                // autoCancelParent
      UNSET,                                // advancedErrorOverride
      UNSET                                 // manualOrderTime
    ]
  }

  function TrailingFields(): (fields: Message)
    ensures |fields| == 72
  {
    EarlyConstants() + MiddleConstants() + LateConstants()
  }

  /** Concatenating loop shared by the two cached sections. */
  method TerminateAll(fields: Message) returns (out: bytes)
    ensures out == Terminated(fields)
  {
    out := [];
    for i := 0 to |fields|
      invariant out == Terminated(fields[..i])
    {
      TerminatedSnoc(fields[..i], fields[i]);
      assert fields[..i + 1] == fields[..i] + [fields[i]];
      out := out + fields[i];
      out := out + [0];
    }
    assert fields[..|fields|] == fields;
  }

  ghost predicate IsTemplateOf(t: ContractTemplate, c: ContractRequest, ryu: F64 -> bytes) {
    t.bytes == Terminated(ContractFields(c, ryu))
  }

  method FromContract(c: ContractRequest, ryu: F64 -> bytes) returns (t: ContractTemplate)
    ensures IsTemplateOf(t, c, ryu)
  {
    var b := TerminateAll(ContractFields(c, ryu));
    t := ContractTemplate(b);
  }

  /** Append one field and its NUL; `head` is what was in the buffer before the ghost `fields`. */
  method PushField(buf: bytes, f: bytes, ghost head: bytes, ghost fields: Message)
    returns (out: bytes, ghost longer: Message)
    requires buf == head + Terminated(fields)
    ensures out == buf + f + [0]
    ensures longer == fields + [f] && out == head + Terminated(longer)
  {
    out := buf + f;
    out := out + [0];
    longer := fields + [f];
    TerminatedSnoc(fields, f);
    Associate(head, Terminated(fields) + f, [0]);
    Associate(head, Terminated(fields), f);
  }

  /** `write_f64` followed by the NUL. */
  method PushF64(buf: bytes, v: F64, ryu: F64 -> bytes, ghost head: bytes, ghost fields: Message)
    returns (out: bytes, ghost longer: Message)
    requires buf == head + Terminated(fields)
    ensures out == buf + FormatF64(ryu, v) + [0]
    ensures longer == fields + [FormatF64(ryu, v)] && out == head + Terminated(longer)
  {
    if v == INFINITY || v == NEGATIVE_INFINITY {
      out, longer := PushField(buf, INFINITE_TEXT, head, fields);
    } else {
      out, longer := PushField(buf, ryu(v), head, fields);
    }
  }

  /** What is traded, and on which terms. */
  function TermsFields(p: PlaceOrderParams, ryu: F64 -> bytes): (fields: Message) {
    [
      p.action, FormatF64(ryu, p.totalQuantity), p.orderType, FormatF64(ryu, p.lmtPrice),
      FormatF64(ryu, p.auxPrice), p.tif
    ]
  }

  method PushTerms(buf: bytes, p: PlaceOrderParams, ryu: F64 -> bytes) returns (out: bytes)
    ensures out == buf + Terminated(TermsFields(p, ryu))
  {
    out := buf;
    ghost var fields: Message := [];
    out, fields := PushField(out, p.action, buf, fields);
    out, fields := PushF64(out, p.totalQuantity, ryu, buf, fields);
    out, fields := PushField(out, p.orderType, buf, fields);
    out, fields := PushF64(out, p.lmtPrice, ryu, buf, fields);
    out, fields := PushF64(out, p.auxPrice, ryu, buf, fields);
    out, fields := PushField(out, p.tif, buf, fields);
    assert fields == TermsFields(p, ryu);
  }

  /** Account and routing. */
  function RoutingFields(p: PlaceOrderParams): (fields: Message) {
    [
      UNSET, p.account, UNSET, ZERO_TEXT, p.orderRef, ONE_TEXT
    ]
  }

  method PushRouting(buf: bytes, p: PlaceOrderParams) returns (out: bytes)
    ensures out == buf + Terminated(RoutingFields(p))
  {
    out := buf;
    ghost var fields: Message := [];
    out, fields := PushField(out, UNSET, buf, fields);       // ocaGroup
    out, fields := PushField(out, p.account, buf, fields);
    out, fields := PushField(out, UNSET, buf, fields);       // openClose
    out, fields := PushField(out, ZERO_TEXT, buf, fields);   // origin
    out, fields := PushField(out, p.orderRef, buf, fields);
    out, fields := PushField(out, ONE_TEXT, buf, fields);    // transmit
    assert fields == RoutingFields(p);
  }

  /** Display and session flags. */
  function FlagsFields(p: PlaceOrderParams): (fields: Message) {
    [
      ZERO_TEXT, ZERO_TEXT, ZERO_TEXT, ZERO_TEXT, ZERO_TEXT,
      if p.outsideRth then ONE_TEXT else ZERO_TEXT, ZERO_TEXT
    ]
  }

  method PushFlags(buf: bytes, p: PlaceOrderParams) returns (out: bytes)
    ensures out == buf + Terminated(FlagsFields(p))
  {
    out := buf;
    ghost var fields: Message := [];
    out, fields := PushField(out, ZERO_TEXT, buf, fields);   // parentId
    out, fields := PushField(out, ZERO_TEXT, buf, fields);   // blockOrder
    out, fields := PushField(out, ZERO_TEXT, buf, fields);   // sweepToFill
    out, fields := PushField(out, ZERO_TEXT, buf, fields);   // displaySize
    out, fields := PushField(out, ZERO_TEXT, buf, fields);   // triggerMethod
    out, fields := PushField(out, if p.outsideRth then ONE_TEXT else ZERO_TEXT, buf, fields);
    out, fields := PushField(out, ZERO_TEXT, buf, fields);   // hidden
    assert fields == FlagsFields(p);
  }

  /** Discretion and expiry. */
  function ExpiryFields(p: PlaceOrderParams, ryu: F64 -> bytes): (fields: Message) {
    [
      UNSET, FormatF64(ryu, POSITIVE_ZERO), p.goodTillDate, UNSET, UNSET
    ]
  }

  method PushExpiry(buf: bytes, p: PlaceOrderParams, ryu: F64 -> bytes) returns (out: bytes)
    ensures out == buf + Terminated(ExpiryFields(p, ryu))
  {
    out := buf;
    ghost var fields: Message := [];
    out, fields := PushField(out, UNSET, buf, fields);       // sharesAllocation
    out, fields := PushF64(out, POSITIVE_ZERO, ryu, buf, fields); // discretionaryAmt
    out, fields := PushField(out, p.goodTillDate, buf, fields);
    out, fields := PushField(out, UNSET, buf, fields);       // goodAfterTime
    out, fields := PushField(out, UNSET, buf, fields);       // faGroup
    assert fields == ExpiryFields(p, ryu);
  }

  /** Advisor allocation and locate. */
  function AllocationFields(): (fields: Message) {
    [
      UNSET, UNSET, UNSET, UNSET, UNSET, UNSET
    ]
  }

  method PushAllocation(buf: bytes) returns (out: bytes)
    ensures out == buf + Terminated(AllocationFields())
  {
    out := buf;
    ghost var fields: Message := [];
    out, fields := PushField(out, UNSET, buf, fields);       // faMethod
    out, fields := PushField(out, UNSET, buf, fields);       // faPercentage
    out, fields := PushField(out, UNSET, buf, fields);       // faProfile
    out, fields := PushField(out, UNSET, buf, fields);       // modelCode
    out, fields := PushField(out, UNSET, buf, fields);       // shortSaleSlot
    out, fields := PushField(out, UNSET, buf, fields);       // designatedLocation
    assert fields == AllocationFields();
  }

  /** The fields that change per order, as the hot path lays them out. */
  function BodyFields(p: PlaceOrderParams, ryu: F64 -> bytes): (fields: Message)
    ensures |fields| == 30
  {
    TermsFields(p, ryu) +
    RoutingFields(p) +
    FlagsFields(p) +
    ExpiryFields(p, ryu) +
    AllocationFields()
  }

  method PushBody(buf: bytes, p: PlaceOrderParams, ryu: F64 -> bytes) returns (payload: bytes)
    ensures payload == buf + Terminated(BodyFields(p, ryu))
  {
    hide TermsFields, RoutingFields, FlagsFields, ExpiryFields, AllocationFields, Terminated;
    payload := PushTerms(buf, p, ryu);
    payload := PushRouting(payload, p);
    payload := PushFlags(payload, p);
    payload := PushExpiry(payload, p, ryu);
    payload := PushAllocation(payload);
    FiveSections(TermsFields(p, ryu), RoutingFields(p), FlagsFields(p), ExpiryFields(p, ryu), AllocationFields());
  }

  lemma FiveSections(a: Message, b: Message, c: Message, d: Message, e: Message)
    ensures Terminated(a + b + c + d + e) ==
            Terminated(a) + Terminated(b) + Terminated(c) + Terminated(d) + Terminated(e)
  {
    TerminatedSections(a, b, c, d);
    TerminatedConcat(a + b + c + d, e);
  }

  lemma TerminatedSections(a: Message, b: Message, c: Message, d: Message)
    ensures Terminated(a + b + c + d) == Terminated(a) + Terminated(b) + Terminated(c) + Terminated(d)
  {
    TerminatedConcat(a, b);
    TerminatedConcat(a + b, c);
    TerminatedConcat(a + b + c, d);
  }

  /** The reference list is the header, the contract, the body and the constants, in that order. */
  lemma ReferenceSections(orderId: int, c: ContractRequest, p: PlaceOrderParams, ryu: F64 -> bytes)
    ensures PlaceOrderFields(orderId, c, p, ryu) ==
            [Decimal(OUT_PLACE_ORDER), Decimal(orderId)] + ContractFields(c, ryu) + BodyFields(p, ryu)
            + TrailingFields()
  {
  }

  method PushHeader(orderId: int) returns (out: bytes)
    ensures out == Terminated([Decimal(OUT_PLACE_ORDER), Decimal(orderId)])
  {
    out := [];
    ghost var fields: Message := [];
    out, fields := PushField(out, Decimal(OUT_PLACE_ORDER), [], fields);
    out, fields := PushField(out, Decimal(orderId), [], fields);
  }

  /** For every contract the template was built from, the spliced frame is the reference frame. */
  method PlaceOrderFast(orderId: int, template: ContractTemplate, p: PlaceOrderParams, ryu: F64 -> bytes)
    returns (frame: bytes)
    ensures forall c :: IsTemplateOf(template, c, ryu) ==> frame == PlaceOrderFrame(orderId, c, p, ryu)
  {
    hide ContractFields, TrailingFields, BodyFields, PlaceOrderFields, Terminated;
    var trailing := TerminateAll(TrailingFields());
    ghost var header := [Decimal(OUT_PLACE_ORDER), Decimal(orderId)];
    var payload := PushHeader(orderId);
    payload := payload + template.bytes;
    payload := PushBody(payload, p, ryu);
    payload := payload + trailing;
    frame := Be32(|payload|);
    frame := frame + payload;
    forall c | IsTemplateOf(template, c, ryu)
      ensures frame == PlaceOrderFrame(orderId, c, p, ryu)
    {
      ReferenceSections(orderId, c, p, ryu);
      TerminatedSections(header, ContractFields(c, ryu), BodyFields(p, ryu), TrailingFields());
    }
  }

  // ---- The per-instrument cache ----

  datatype Placement = Placement(instrument: int, contract: ContractRequest, orderId: int, params: PlaceOrderParams)

  /** `entry(id).or_insert_with(..)`: the descriptor an instrument was first placed with stays. */
  function Remember(first: map<int, ContractRequest>, q: Placement): (m: map<int, ContractRequest>)
    ensures q.instrument in m
  {
    if q.instrument in first then first else first[q.instrument := q.contract]
  }

  function FirstDescriptors(run: seq<Placement>): (m: map<int, ContractRequest>) {
    if run == [] then map[] else Remember(FirstDescriptors(run[..|run| - 1]), run[|run| - 1])
  }

  /** The frame sent at one placement of a run: the instrument's first descriptor up to there, and the
      placement's own id and parameters. */
  function SentAt(run: seq<Placement>, i: nat, ryu: F64 -> bytes): (frame: bytes)
    requires i < |run|
  {
    PlaceOrderFrame(run[i].orderId, DescriptorAt(run, i), run[i].params, ryu)
  }

  function DescriptorAt(run: seq<Placement>, i: nat): (c: ContractRequest)
    requires i < |run|
  {
    assert run[..i + 1][..i] == run[..i];
    FirstDescriptors(run[..i + 1])[run[i].instrument]
  }

  /** The reference frame of a placement. */
  function OwnFrame(q: Placement, ryu: F64 -> bytes): (frame: bytes) {
    PlaceOrderFrame(q.orderId, q.contract, q.params, ryu)
  }

  /** The cached descriptor at a placement is that of the first placement with its instrument. */
  lemma {:induction false} DescriptorIsFirst(run: seq<Placement>, id: int) returns (j: nat)
    requires id in FirstDescriptors(run)
    ensures j < |run| && run[j].instrument == id && run[j].contract == FirstDescriptors(run)[id]
    ensures forall i :: 0 <= i < j ==> run[i].instrument != id
  {
    var init := run[..|run| - 1];
    if id in FirstDescriptors(init) {
      j := DescriptorIsFirst(init, id);
      forall i | 0 <= i <= j ensures run[i] == init[i] {
      }
    } else {
      j := |run| - 1;
      NoDescriptor(init, id);
      forall i | 0 <= i < j ensures run[i] == init[i] {
      }
    }
  }

  lemma {:induction false} NoDescriptor(run: seq<Placement>, id: int)
    requires id !in FirstDescriptors(run)
    ensures forall i :: 0 <= i < |run| ==> run[i].instrument != id
  {
    if run != [] {
      var init := run[..|run| - 1];
      NoDescriptor(init, id);
      forall i | 0 <= i < |init| ensures run[i] == init[i] {
      }
    }
  }

  lemma SentEarlier(run: seq<Placement>, q: Placement, i: nat, ryu: F64 -> bytes)
    requires i < |run|
    ensures SentAt(run + [q], i, ryu) == SentAt(run, i, ryu)
  {
    assert (run + [q])[..i + 1] == run[..i + 1];
  }

  lemma SentLast(run: seq<Placement>, q: Placement, ryu: F64 -> bytes)
    ensures var first := Remember(FirstDescriptors(run), q);
            && FirstDescriptors(run + [q]) == first
            && SentAt(run + [q], |run|, ryu) == PlaceOrderFrame(q.orderId, first[q.instrument], q.params, ryu)
  {
    hide PlaceOrderFrame;
    var longer := run + [q];
    assert longer[..|run|] == run && longer[..|run| + 1] == longer;
  }

  class TemplateCache {
    const ryu: F64 -> bytes
    var templates: map<int, ContractTemplate>
    ghost var run: seq<Placement>
    ghost var sent: seq<bytes>

    /** The templates are those of the first descriptors of the run, and what was sent is that run's. */
    ghost predicate Valid()
      reads this
    {
      && TemplatesOf(templates, FirstDescriptors(run), ryu)
      && |sent| == |run| && forall i :: 0 <= i < |run| ==> sent[i] == SentAt(run, i, ryu)
    }

    constructor (ryu: F64 -> bytes)
      ensures Valid() && run == [] && this.ryu == ryu
    {
      this.ryu, templates, run, sent := ryu, map[], [], [];
    }

    /** Looks the template up, or builds and stores it. */
    method Template(q: Placement) returns (t: ContractTemplate)
      requires TemplatesOf(templates, FirstDescriptors(run), ryu)
      modifies this`templates
      ensures var first := Remember(FirstDescriptors(run), q);
              TemplatesOf(templates, first, ryu) && IsTemplateOf(t, first[q.instrument], ryu)
    {
      if q.instrument !in templates {
        t := FromContract(q.contract, ryu);
        templates := templates[q.instrument := t];
      } else {
        t := templates[q.instrument];
      }
    }

    /** Sends one placement. With `Valid()`, the i-th frame ever sent is that of the run so far. */
    method Frame(q: Placement) returns (frame: bytes)
      requires Valid()
      modifies this
      ensures Valid() && run == old(run) + [q] && sent == old(sent) + [frame]
    {
      hide FirstDescriptors, SentAt, IsTemplateOf, Remember;
      var template := Template(q);
      frame := PlaceOrderFast(q.orderId, template, q.params, ryu);
      SentLast(run, q, ryu);
      forall i | 0 <= i < |run| ensures SentAt(run + [q], i, ryu) == sent[i] {
        SentEarlier(run, q, i, ryu);
      }
      run, sent := run + [q], sent + [frame];
    }
  }

  ghost predicate TemplatesOf(
      templates: map<int, ContractTemplate>, first: map<int, ContractRequest>, ryu: F64 -> bytes)
  {
    && templates.Keys == first.Keys
    && forall id :: id in first ==> IsTemplateOf(templates[id], first[id], ryu)
  }

  ghost predicate Consistent(run: seq<Placement>) {
    forall i, j :: 0 <= i < |run| && 0 <= j < |run| && run[i].instrument == run[j].instrument ==>
      run[i].contract == run[j].contract
  }

  /** Over a run in which an instrument always carries the same descriptor, every placement finds
      its own descriptor in the cache. */
  lemma {:induction false} ConsistentRun(run: seq<Placement>)
    requires Consistent(run)
    ensures forall id :: id in FirstDescriptors(run) ==>
              exists i :: 0 <= i < |run| && run[i].instrument == id && run[i].contract == FirstDescriptors(run)[id]
    ensures forall i :: 0 <= i < |run| ==>
              run[i].instrument in FirstDescriptors(run) && FirstDescriptors(run)[run[i].instrument] == run[i].contract
  {
    if run != [] {
      var init, last := run[..|run| - 1], run[|run| - 1];
      ConsistentRun(init);
      forall id | id in FirstDescriptors(run)
        ensures exists i :: 0 <= i < |run| && run[i].instrument == id && run[i].contract == FirstDescriptors(run)[id]
      {
        if id in FirstDescriptors(init) {
          var i :| 0 <= i < |init| && init[i].instrument == id && init[i].contract == FirstDescriptors(init)[id];
          assert run[i] == init[i];
        } else {
          assert run[|run| - 1].instrument == id;
        }
      }
      forall i | 0 <= i < |run|
        ensures run[i].instrument in FirstDescriptors(run)
        ensures FirstDescriptors(run)[run[i].instrument] == run[i].contract
      {
        if i < |init| { assert run[i] == init[i]; }
      }
    }
  }

  lemma MiddleDetermined(head: bytes, a: bytes, b: bytes, tail: bytes)
    requires head + a + tail == head + b + tail
    ensures a == b
  {
    assert |a| == |b|;
    assert (head + a + tail)[|head|..|head| + |a|] == a;
    assert (head + b + tail)[|head|..|head| + |b|] == b;
  }

  /** Frames that share all sections but one are equal exactly when that section's bytes are. */
  lemma SplicedTextEqualIff(header: Message, a: Message, b: Message, body: Message, trailing: Message)
    ensures Encode(header + a + body + trailing) == Encode(header + b + body + trailing)
            <==> Terminated(a) == Terminated(b)
  {
    TerminatedSections(header, a, body, trailing);
    TerminatedSections(header, b, body, trailing);
    if Encode(header + a + body + trailing) == Encode(header + b + body + trailing) {
      var x, y := Terminated(header + a + body + trailing), Terminated(header + b + body + trailing);
      assert x == Pack(x)[4..] == Pack(y)[4..] == y;
      Associate(Terminated(header) + Terminated(a), Terminated(body), Terminated(trailing));
      Associate(Terminated(header) + Terminated(b), Terminated(body), Terminated(trailing));
      MiddleDetermined(Terminated(header), Terminated(a), Terminated(b), Terminated(body) + Terminated(trailing));
    }
  }

  lemma SameTextSameFields(a: Message, b: Message)
    requires NulFree(a) && NulFree(b) && Terminated(a) == Terminated(b)
    ensures a == b
  {
    FieldsOfTerminated(a);
    FieldsOfTerminated(b);
  }

  /** Messages that differ in one section have different frames. */
  lemma SplicedFramesEqualIff(header: Message, a: Message, b: Message, body: Message, trailing: Message)
    requires NulFree(a) && NulFree(b)
    ensures Encode(header + a + body + trailing) == Encode(header + b + body + trailing) <==> a == b
  {
    SplicedTextEqualIff(header, a, b, body, trailing);
    if Terminated(a) == Terminated(b) {
      SameTextSameFields(a, b);
    }
  }

  /** A cached descriptor gives the right frame exactly when its contract section is the same text,
      which for fields without a NUL means the same fields. */
  lemma CachedFrameIsRightIff(
      orderId: int, cached: ContractRequest, own: ContractRequest, p: PlaceOrderParams, ryu: F64 -> bytes)
    ensures var (a, b) := (ContractFields(cached, ryu), ContractFields(own, ryu));
            && (PlaceOrderFrame(orderId, cached, p, ryu) == PlaceOrderFrame(orderId, own, p, ryu)
                <==> Terminated(a) == Terminated(b))
            && (NulFree(a) && NulFree(b) ==> (Terminated(a) == Terminated(b) <==> a == b))
  {
    var a, b := ContractFields(cached, ryu), ContractFields(own, ryu);
    ReferenceSections(orderId, cached, p, ryu);
    ReferenceSections(orderId, own, p, ryu);
    SplicedTextEqualIff([Decimal(OUT_PLACE_ORDER), Decimal(orderId)], a, b, BodyFields(p, ryu), TrailingFields());
    if NulFree(a) && NulFree(b) && Terminated(a) == Terminated(b) {
      SameTextSameFields(a, b);
    }
  }

  /** Over every run, the frame sent at a placement is the placement's own reference frame if and only
      if the first descriptor its instrument was placed with has the same contract text. */
  lemma SentFrameIsRightIff(run: seq<Placement>, i: nat, ryu: F64 -> bytes)
    requires i < |run|
    ensures var (a, b) := (ContractFields(DescriptorAt(run, i), ryu), ContractFields(run[i].contract, ryu));
            && (SentAt(run, i, ryu) == OwnFrame(run[i], ryu) <==> Terminated(a) == Terminated(b))
            && (NulFree(a) && NulFree(b) ==> (SentAt(run, i, ryu) == OwnFrame(run[i], ryu) <==> a == b))
  {
    CachedFrameIsRightIff(run[i].orderId, DescriptorAt(run, i), run[i].contract, run[i].params, ryu);
  }

  /** So over a run in which an instrument always carries the same descriptor, every frame is right. */
  lemma ConsistentRunSendsReference(run: seq<Placement>, ryu: F64 -> bytes)
    requires Consistent(run)
    ensures forall i :: 0 <= i < |run| ==> SentAt(run, i, ryu) == OwnFrame(run[i], ryu)
  {
    forall i | 0 <= i < |run| ensures DescriptorAt(run, i) == run[i].contract {
      ConsistentRun(run[..i + 1]);
      assert run[..i + 1][i] == run[i];
    }
  }
}
