/**
 * The price-mean server: a fixed 9-byte message format, a per-connection map
 * from timestamp to price, and the inclusive-range mean query.
 */
module Prices {
  import opened Wrappers
  import opened Bytes

  datatype Kind = Insert | Query

  /** An Insert carries (timestamp, price); a Query carries (mintime, maxtime). */
  datatype Message = Message(kind: Kind, content: (i32, i32))

  const MESSAGE_LENGTH := 9
  const ASCII_I := 0x49
  const ASCII_Q := 0x51
  const WRONG_LENGTH := "Message must be 9 bytes"
  const WRONG_KIND := "First byte must be 'I' or 'Q'"

  /**
   * `Message::try_from`: exactly nine bytes, a kind byte, then two big-endian
   * two's-complement i32 fields. The length is checked before the kind byte.
   */
  function ParseMessage(b: seq<u8>): (r: Result<Message, string>)
    ensures |b| != MESSAGE_LENGTH ==> r == Err(WRONG_LENGTH)
    ensures |b| == MESSAGE_LENGTH && b[0] != ASCII_I && b[0] != ASCII_Q ==> r == Err(WRONG_KIND)
    ensures r.Ok? <==> |b| == MESSAGE_LENGTH && (b[0] == ASCII_I || b[0] == ASCII_Q)
  {
    if |b| != MESSAGE_LENGTH then Err(WRONG_LENGTH)
    else if b[0] != ASCII_I && b[0] != ASCII_Q then Err(WRONG_KIND)
    else
      var kind := if b[0] == ASCII_I then Insert else Query;
      Ok(Message(kind, (I32FromBe(b[1..5]), I32FromBe(b[5..9]))))
  }

  /** The client side of the format. */
  function EncodeMessage(m: Message): (b: seq<u8>)
    ensures |b| == MESSAGE_LENGTH
  {
    [if m.kind == Insert then ASCII_I else ASCII_Q] + I32ToBe(m.content.0) + I32ToBe(m.content.1)
  }

  lemma ParseEncode(m: Message)
    ensures ParseMessage(EncodeMessage(m)) == Ok(m)
  {
    var b := EncodeMessage(m);
    assert b[1..5] == I32ToBe(m.content.0);
    assert b[5..9] == I32ToBe(m.content.1);
    I32RoundTrip(m.content.0, b[1..5]);
    I32RoundTrip(m.content.1, b[5..9]);
  }

  lemma EncodeParse(b: seq<u8>)
    requires ParseMessage(b).Ok?
    ensures EncodeMessage(ParseMessage(b).value) == b
  {
    I32RoundTrip(I32FromBe(b[1..5]), b[1..5]);
    I32RoundTrip(I32FromBe(b[5..9]), b[5..9]);
    assert b == b[..1] + b[1..5] + b[5..9];
  }

  /** The number of stored prices with timestamp in [lo, hi]: the fold's count. */
  function RangeCount(data: map<i32, i32>, lo: int, hi: int): nat
    decreases hi - lo
  {
    if lo > hi then 0 else RangeCount(data, lo, hi - 1) + (if hi in data then 1 else 0)
  }

  /** The sum of the stored prices with timestamp in [lo, hi]: the fold's sum. */
  function RangeSum(data: map<i32, i32>, lo: int, hi: int): int
    decreases hi - lo
  {
    if lo > hi then 0 else RangeSum(data, lo, hi - 1) + (if hi in data then data[hi] as int else 0)
  }

  /** Division truncating toward zero, as Rust's `/` on i64. */
  function TruncDiv(a: int, b: int): (q: int)
    requires b > 0
    ensures a >= 0 ==> 0 <= q && q * b <= a < q * b + b
    ensures a < 0 ==> q <= 0 && q * b - b < a <= q * b
  {
    if a >= 0 then
      FloorDiv(a, b);
      a / b
    else
      FloorDiv(-a, b);
      NegMul(-a / b, b);
      -(-a / b)
  }

  lemma FloorDiv(a: nat, b: int)
    requires b > 0
    ensures 0 <= a / b && (a / b) * b <= a < (a / b) * b + b
  {
  }

  lemma NegMul(p: int, b: int)
    ensures (-p) * b == -(p * b)
  {
  }

  predicate PricesWithin(data: map<i32, i32>, lo: int, hi: int, m: int, n: int)
  {
    forall k :: k in data && lo <= k <= hi ==> m <= data[k] <= n
  }

  /** Every price in the range is in [m, n], so the sum is between count·m and count·n. */
  lemma {:induction false} SumBounds(data: map<i32, i32>, lo: int, hi: int, m: int, n: int)
    requires PricesWithin(data, lo, hi, m, n)
    ensures RangeCount(data, lo, hi) * m <= RangeSum(data, lo, hi) <= RangeCount(data, lo, hi) * n
    decreases hi - lo
  {
    if lo <= hi {
      SumBounds(data, lo, hi - 1, m, n);
      var c := RangeCount(data, lo, hi - 1);
      assert (c + 1) * m == c * m + m && (c + 1) * n == c * n + n;
    }
  }

  lemma {:induction false} CountBound(data: map<i32, i32>, lo: int, hi: int)
    ensures lo <= hi ==> RangeCount(data, lo, hi) <= hi - lo + 1
    ensures lo > hi ==> RangeCount(data, lo, hi) == 0
    decreases hi - lo
  {
    if lo <= hi {
      CountBound(data, lo, hi - 1);
    }
  }

  /** A truncated mean of values in [m, n] is itself in [m, n]. */
  lemma MeanWithin(sum: int, count: int, m: int, n: int)
    requires count > 0 && count * m <= sum <= count * n
    ensures m <= TruncDiv(sum, count) <= n
  {
    var q := TruncDiv(sum, count);
    MulLe(q + 1, m, count);
    MulLe(n + 1, q, count);
    assert (q + 1) * count == q * count + count;
    assert (n + 1) * count == n * count + count;
  }

  lemma MulLe(a: int, b: int, c: nat)
    ensures a <= b ==> a * c <= b * c
  {
  }

  /**
   * `handle_query`: 0 for an empty or inverted range, otherwise the i64 sum
   * over the i64 count, truncated. The mean of i32 prices always fits in i32,
   * so the `as i32` cast never wraps.
   */
  function Mean(data: map<i32, i32>, mintime: i32, maxtime: i32): (r: i32)
  {
    if mintime > maxtime then 0
    else
      var count, sum := RangeCount(data, mintime, maxtime), RangeSum(data, mintime, maxtime);
      if count == 0 then 0
      else
        SumBounds(data, mintime, maxtime, -0x8000_0000, 0x7FFF_FFFF);
        MeanWithin(sum, count, -0x8000_0000, 0x7FFF_FFFF);
        TruncDiv(sum, count)
  }

  /** The mean lies between any lower and upper bound of the prices in range, in particular their minimum and maximum. */
  lemma MeanBetween(data: map<i32, i32>, mintime: i32, maxtime: i32, m: int, n: int)
    requires mintime <= maxtime && RangeCount(data, mintime, maxtime) > 0
    requires PricesWithin(data, mintime, maxtime, m, n)
    ensures m <= Mean(data, mintime, maxtime) <= n
  {
    SumBounds(data, mintime, maxtime, m, n);
    MeanWithin(RangeSum(data, mintime, maxtime), RangeCount(data, mintime, maxtime), m, n);
  }

  /** The i64 accumulators of the fold never overflow. */
  lemma FoldFitsI64(data: map<i32, i32>, mintime: i32, maxtime: i32)
    ensures RangeCount(data, mintime, maxtime) < 0x8000_0000_0000_0000
    ensures -0x8000_0000_0000_0000 <= RangeSum(data, mintime, maxtime) < 0x8000_0000_0000_0000
  {
    var c := RangeCount(data, mintime, maxtime);
    CountBound(data, mintime, maxtime);
    SumBounds(data, mintime, maxtime, -0x8000_0000, 0x7FFF_FFFF);
    assert c <= 0x1_0000_0000;
    MulLe(c, 0x1_0000_0000, 0x8000_0000);
  }

  /** Without prices in range, or with an inverted range, the answer is 0. */
  lemma MeanEmpty(data: map<i32, i32>, mintime: i32, maxtime: i32)
    requires forall k :: k in data ==> !(mintime <= k <= maxtime)
    ensures Mean(data, mintime, maxtime) == 0
  {
    if mintime <= maxtime {
      NoneInRange(data, mintime, maxtime);
    }
  }

  lemma {:induction false} NoneInRange(data: map<i32, i32>, lo: int, hi: int)
    requires forall k :: k in data ==> !(lo <= k <= hi)
    ensures RangeCount(data, lo, hi) == 0
    decreases hi - lo
  {
    if lo <= hi {
      NoneInRange(data, lo, hi - 1);
    }
  }

  /** The range fold sees only timestamps in range: prices outside it do not matter. */
  lemma {:induction false} RangeIgnoresOutside(data: map<i32, i32>, k: i32, p: i32, lo: int, hi: int)
    requires !(lo <= k <= hi)
    ensures RangeCount(data[k := p], lo, hi) == RangeCount(data, lo, hi)
    ensures RangeSum(data[k := p], lo, hi) == RangeSum(data, lo, hi)
    decreases hi - lo
  {
    if lo <= hi {
      RangeIgnoresOutside(data, k, p, lo, hi - 1);
    }
  }

  /** A query over a single timestamp returns the price last inserted at it. */
  lemma QueryAfterInsert(data: map<i32, i32>, timestamp: i32, price: i32)
    ensures Mean(data[timestamp := price], timestamp, timestamp) == price
  {
    var d := data[timestamp := price];
    assert RangeCount(d, timestamp, timestamp - 1) == 0;
    assert RangeSum(d, timestamp, timestamp - 1) == 0;
  }

  /** One connection's `client_data`. */
  class PriceSession {
    var data: map<i32, i32>

    constructor()
      ensures data == map[]
    {
      data := map[];
    }

    /** `handle_insert`: the price at the timestamp is set, overwriting; no response. */
    method HandleInsert(timestamp: i32, price: i32)
      modifies this
      ensures data == old(data)[timestamp := price]
    {
      data := data[timestamp := price];
    }

    /**
     * `handle_request`: a malformed message is an error and nothing is
     * stored; an insert stores and sends nothing; a query sends its mean as
     * four big-endian bytes.
     */
    method HandleRequest(request: seq<u8>) returns (r: Result<Option<seq<u8>>, string>)
      modifies this
      ensures ParseMessage(request).Err? ==> r == Err(ParseMessage(request).error) && data == old(data)
      ensures ParseMessage(request).Ok? && ParseMessage(request).value.kind == Insert ==>
        var (t, p) := ParseMessage(request).value.content;
        r == Ok(None) && data == old(data)[t := p]
      ensures ParseMessage(request).Ok? && ParseMessage(request).value.kind == Query ==>
        var (lo, hi) := ParseMessage(request).value.content;
        r == Ok(Some(I32ToBe(Mean(old(data), lo, hi)))) && data == old(data)
    {
      var message := ParseMessage(request);
      if message.Err? {
        return Err(message.error);
      }
      match message.value.kind {
        case Insert =>
          HandleInsert(message.value.content.0, message.value.content.1);
          r := Ok(None);
        case Query =>
          var mean := Mean(data, message.value.content.0, message.value.content.1);
          r := Ok(Some(I32ToBe(mean)));
      }
    }
  }
}
