/** The reference encoder of the placeOrder message: one list of fields, in wire order. */
module PlaceOrder {
  import opened Bytes
  import opened Codec

  const OUT_PLACE_ORDER := 3

  // ---- Field encodings ----

  /** An f64 is its bit pattern. */
  type F64 = n: nat | n < 0x1_0000_0000_0000_0000

  const POSITIVE_ZERO: F64 := 0
  const INFINITY: F64 := 0x7FF0_0000_0000_0000
  const NEGATIVE_INFINITY: F64 := 0xFFF0_0000_0000_0000

  const UNSET: bytes := []
  const ZERO_TEXT: bytes := [48]
  const ONE_TEXT: bytes := [49]
  const INFINITE_TEXT: bytes := [73, 110, 102, 105, 110, 105, 116, 101]

  function Digits(n: nat): (text: bytes)
    ensures |text| > 0 && forall i :: 0 <= i < |text| ==> 48 <= text[i] <= 57
  {
    if n < 10 then [(48 + n) as byte] else Digits(n / 10) + [(48 + n % 10) as byte]
  }

  /** Decimal text of an integer, as both integer formatters produce it. */
  function Decimal(n: int): (text: bytes)
    ensures 0 !in text
  {
    if n < 0 then [45] + Digits(-n) else Digits(n)
  }

  /** Text of a float: a fixed word for either infinity, otherwise the shortest-round-trip text,
      which is the parameter `ryu`. */
  function FormatF64(ryu: F64 -> bytes, v: F64): (text: bytes)
  {
    if v == INFINITY || v == NEGATIVE_INFINITY then INFINITE_TEXT else ryu(v)
  }

  function EncodeBool(v: bool): (text: bytes) {
    if v then ONE_TEXT else ZERO_TEXT
  }

  // ---- Requests ----

  datatype ContractRequest = ContractRequest(
    conId: int, symbol: bytes, secType: bytes, lastTradeDate: bytes, strike: F64, right: bytes,
    multiplier: bytes, exchange: bytes, primaryExchange: bytes, currency: bytes,
    localSymbol: bytes, tradingClass: bytes)

  datatype PlaceOrderParams = PlaceOrderParams(
    action: bytes, totalQuantity: F64, orderType: bytes, lmtPrice: F64, auxPrice: F64, tif: bytes,
    goodTillDate: bytes, account: bytes, orderRef: bytes, outsideRth: bool)

  function PlaceOrderFields(orderId: int, c: ContractRequest, p: PlaceOrderParams, ryu: F64 -> bytes): (fields: Message)
  {
    [
      Decimal(OUT_PLACE_ORDER),
      Decimal(orderId)
    ] + [
      Decimal(c.conId),
      c.symbol,
      c.secType,
      c.lastTradeDate,
      FormatF64(ryu, c.strike),
      c.right,
      c.multiplier,
      c.exchange,
      c.primaryExchange,
      c.currency,
      c.localSymbol,
      c.tradingClass,
      UNSET,                                // secIdType
      UNSET                                 // secId
    ] + ([
      p.action,
      FormatF64(ryu, p.totalQuantity),
      p.orderType,
      FormatF64(ryu, p.lmtPrice),
      FormatF64(ryu, p.auxPrice),
      p.tif
    ] + [
      UNSET,                                // ocaGroup
      p.account,
      UNSET,                                // openClose
      Decimal(0),                           // origin
      p.orderRef,
      EncodeBool(true)                      // transmit
    ] + [
      Decimal(0),                           // parentId
      EncodeBool(false),                    // blockOrder
      EncodeBool(false),                    // sweepToFill
      Decimal(0),                           // displaySize
      Decimal(0),                           // triggerMethod
      EncodeBool(p.outsideRth),
      EncodeBool(false)                     // hidden
    ] + [
      UNSET,                                // sharesAllocation
      FormatF64(ryu, POSITIVE_ZERO),        // discretionaryAmt
      p.goodTillDate,
      UNSET,                                // goodAfterTime
      UNSET                                 // faGroup
    ] + [
      UNSET,                                // faMethod
      UNSET,                                // faPercentage
      UNSET,                                // faProfile
      UNSET,                                // modelCode
      UNSET,                                // shortSaleSlot
      UNSET                                 // designatedLocation
    ]) + ([
      Decimal(-1),                          // exemptCode
      Decimal(0),                           // ocaType
      UNSET,                                // rule80A
      UNSET,                                // settlingFirm
      EncodeBool(false),                    // allOrNone
      UNSET,                                // minQty
      UNSET,                                // percentOffset
      EncodeBool(false),                    // eTradeOnly
      EncodeBool(false),                    // firmQuoteOnly
      UNSET,                                // nbboPriceCap
      Decimal(0),                           // auctionStrategy
      UNSET,                                // startingPrice
      UNSET,                                // stockRefPrice
      UNSET,                                // delta
      UNSET,                                // stockRangeLower
      UNSET,                                // stockRangeUpper
      EncodeBool(false),                    // overridePercentageConstraints
      UNSET,                                // volatility
      UNSET,                                // volatilityType
      UNSET,                                // deltaNeutralOrderType
      UNSET,                                // deltaNeutralAuxPrice
      UNSET,                                // continuousUpdate
      UNSET,                                // referencePriceType
      UNSET                                 // trailStopPrice
    ] + [
      UNSET,                                // trailingPercent
      UNSET,                                // scaleInitLevelSize
      UNSET,                                // scaleSubsLevelSize
      UNSET,                                // scalePriceIncrement
      UNSET,                                // hedgeType
      UNSET,                                // optOutSmartRouting
      UNSET,                                // clearingAccount
      UNSET,                                // clearingIntent
      EncodeBool(false),                    // notHeld
      EncodeBool(false),                    // delta-neutral contract
      UNSET,                                // algoStrategy
      EncodeBool(false),                    // whatIf
      UNSET,                                // orderMiscOptions
      UNSET,                                // solicited
      EncodeBool(false),                    // randomizeSize
      EncodeBool(false),                    // randomizePrice
      UNSET,                                // referenceContractId
      EncodeBool(false),                    // isPeggedChangeAmountDecrease
      UNSET,                                // peggedChangeAmount
      UNSET,                                // referenceChangeAmount
      UNSET,                                // referenceExchangeId
      Decimal(0),                           // conditionsCount
      UNSET,                                // conditionsIgnoreRth
      UNSET                                 // conditionsCancelOrder
    ] + [
      UNSET,                                // adjustedOrderType
      UNSET,                                // triggerPrice
      UNSET,                                // lmtPriceOffset
      UNSET,                                // adjustedStopPrice
      UNSET,                                // adjustedStopLimitPrice
      UNSET,                                // adjustedTrailingAmount
      Decimal(0),                           // adjustableTrailingUnit
      UNSET,                                // extOperator
      UNSET,                                // softDollarTier.name
      UNSET,                                // softDollarTier.value
      UNSET,                                // cashQty
      UNSET,                                // mifid2DecisionMaker
      UNSET,                                // mifid2DecisionAlgo
      UNSET,                                // mifid2ExecutionTrader
      UNSET,                                // mifid2ExecutionAlgo
      EncodeBool(false),                    // dontUseAutoPriceForHedge
      EncodeBool(false),                    // isOmsContainer
      EncodeBool(false),                    // discretionaryUpToLimitPrice
      UNSET,                                // usePriceMgmtAlgo
      Decimal(0),                           // duration
      Decimal(0),                           // postToAts
      UNSET,                                // autoCancelParent
      UNSET,                                // advancedErrorOverride
      UNSET                                 // manualOrderTime
    ])
  }

  function PlaceOrderFrame(orderId: int, c: ContractRequest, p: PlaceOrderParams, ryu: F64 -> bytes): (frame: bytes)
  {
    Encode(PlaceOrderFields(orderId, c, p, ryu))
  }
}
