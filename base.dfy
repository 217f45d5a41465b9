/** Shared vocabulary of the marketplace: identifiers, optional values and the
    outcome of a route handler. */
module Base {

  /** Identifiers. Users come from the sign-up flow and are keyed in a map;
      listings, trades, chats and reviews are keyed by their position in the
      collection they were inserted into. */
  type UserId = nat
  type ItemId = nat
  type TradeId = nat
  type ChatId = nat

  /** Abstract clock reading (the milliseconds since the epoch of `Date.now()`). */
  type Time = nat

  datatype Option<+T> = None | Some(value: T)

  /** What a route handler answers: a JSON body with status 200, or one of the
      error statuses the handlers produce (any thrown error becomes 500). */
  datatype Response<+T> =
    | Ok(value: T)
    | Unauthorized   // 401
    | BadRequest     // 400
    | NotFound       // 404
    | ServerError    // 500

  function Min(a: int, b: int): int { if a <= b then a else b }

  predicate AllDigits(s: string) {
    forall i :: 0 <= i < |s| ==> '0' <= s[i] <= '9'
  }

  /** The number a string of decimal digits denotes, most significant
      digit first. */
  function DecimalValue(s: string): nat
    requires AllDigits(s)
  {
    if s == [] then 0
    else DecimalValue(s[..|s| - 1]) * 10 + (s[|s| - 1] as int - '0' as int)
  }

  /** Decimal rendering of a natural number: it reads back as `n` and has no
      leading zero. A JavaScript template literal renders an integral number
      this way below 10^21 only; from there on it uses exponent form. */
  function NatToString(n: nat): (s: string)
    ensures |s| > 0 && AllDigits(s)
    ensures DecimalValue(s) == n
    ensures |s| > 1 ==> s[0] != '0'
    ensures n < 10 ==> s == [(n + '0' as int) as char]
    decreases n
  {
    if n < 10 then [(n + '0' as int) as char]
    else
      var s := NatToString(n / 10) + [((n % 10) + '0' as int) as char];
      assert s[..|s| - 1] == NatToString(n / 10);
      s
  }

  /** Decimal rendering of an integer: a minus sign before the digits of a
      negative number. */
  function IntToString(i: int): (s: string)
    ensures |s| > 0
    ensures (s[0] == '-') <==> i < 0
    ensures i >= 0 ==> AllDigits(s) && DecimalValue(s) == i
    ensures i < 0 ==> AllDigits(s[1..]) && |s| > 1 && DecimalValue(s[1..]) == -i
    ensures i >= 0 && |s| > 1 ==> s[0] != '0'
    ensures i < 0 && |s| > 2 ==> s[1] != '0'
  {
    if i < 0 then
      var s := "-" + NatToString(-i);
      assert s[1..] == NatToString(-i);
      s
    else NatToString(i)
  }
}
