/**
  The `/exchange` command: argument parsing, the three-way conversion through
  the rouble, rounding to two places, and the mapping of every failure to the
  fixed usage message.
*/
module Conversion {
  import opened Options
  import opened PyText
  import opened Feed

  /** The base currency: every stored rate is a price in roubles, and roubles never appear in the feed. */
  const Base: string := "RUB"

  /** Why a conversion produced no number; the handler answers each one with the usage message. */
  datatype Failure =
    | ArgumentCount   // the text does not split into exactly four tokens
    | NotAnInteger    // `int()` refuses the amount
    | UnknownCurrency // a lookup found nothing and `None` was subscripted
    | BadRate         // `float()` refuses a stored rate
    | ZeroDivision    // a stored rate of zero was divided by

  datatype Result<T> = Ok(value: T) | Err(failure: Failure)

  /** The parsed arguments: both codes upper-cased, the amount an integer of any sign. */
  datatype Request = Request(from: string, to: string, value: int)

  /**
    `message.text.split(' ')` must give exactly four tokens (the command and
    three arguments); the codes are upper-cased and the amount goes through `int()`.
  */
  function ParseRequest(text: string): (r: Result<Request>)
    ensures r != Err(ArgumentCount) <==> Count(text, ' ') == 3
  {
    var args := Split(text, ' ');
    if |args| != 4 then Err(ArgumentCount)
    else
      match ParseInt(args[3])
      case None => Err(NotAnInteger)
      case Some(v) => Ok(Request(Upper(args[1]), Upper(args[2]), v))
  }

  /** Every command written with single spaces and a canonical integer is accepted as written, negatives and zero included. */
  lemma ParseRequestAccepts(cmd: string, a: string, b: string, n: int)
    requires ' ' !in cmd && ' ' !in a && ' ' !in b
    ensures ParseRequest(cmd + " " + a + " " + b + " " + IntToString(n)) == Ok(Request(Upper(a), Upper(b), n))
  {
    var tokens := [cmd, a, b, IntToString(n)];
    JoinSpaced(cmd, a, b, IntToString(n));
    SplitJoin(tokens, ' ');
    IntRoundTrip(n);
  }

  /** Commands whose codes differ only in ASCII case ask for the same conversion. */
  lemma ParseRequestIgnoresCase(cmd: string, a: string, b: string, a': string, b': string, n: int)
    requires ' ' !in cmd && ' ' !in a && ' ' !in b && ' ' !in a' && ' ' !in b'
    requires SameUpToCase(a, a') && SameUpToCase(b, b')
    ensures ParseRequest(cmd + " " + a + " " + b + " " + IntToString(n)) ==
            ParseRequest(cmd + " " + a' + " " + b' + " " + IntToString(n))
  {
    ParseRequestAccepts(cmd, a, b, n);
    ParseRequestAccepts(cmd, a', b', n);
    UpperIgnoresCase(a, a');
    UpperIgnoresCase(b, b');
  }

  lemma JoinSpaced(t0: string, t1: string, t2: string, t3: string)
    ensures Join([t0, t1, t2, t3], ' ') == t0 + " " + t1 + " " + t2 + " " + t3
  {
    var ts := [t0, t1, t2, t3];
    assert ts[1..] == [t1, t2, t3];
    assert ts[1..][1..] == [t2, t3];
    assert ts[1..][1..][1..] == [t3];
    assert Join([t2, t3], ' ') == t2 + " " + t3;
    assert Join([t1, t2, t3], ' ') == t1 + " " + (t2 + " " + t3);
    assert Join(ts, ' ') == t0 + " " + (t1 + " " + (t2 + " " + t3));
  }

  /** A fractional amount such as `10.5` is refused even when everything else is well formed. */
  lemma FractionalAmountRejected(cmd: string, a: string, b: string, ip: string, fp: string)
    requires ' ' !in cmd && ' ' !in a && ' ' !in b && ' ' !in ip && ' ' !in fp
    ensures ParseRequest(cmd + " " + a + " " + b + " " + (ip + "." + fp)) == Err(NotAnInteger)
  {
    var amount := ip + "." + fp;
    assert amount[|ip|] == '.';
    assert forall j :: 0 <= j < |amount| && amount[j] == ' ' ==> (j < |ip| && ip[j] == ' ') || (j > |ip| && fp[j - |ip| - 1] == ' ');
    JoinSpaced(cmd, a, b, amount);
    SplitJoin([cmd, a, b, amount], ' ');
    ParseIntRejects(amount, |ip|);
  }

  /** Doubling any space of a command that had exactly three makes a fifth, empty token: the command is refused. */
  lemma ExtraSpaceRejected(pre: string, post: string)
    requires Count(pre + post, ' ') == 3
    ensures ParseRequest(pre + " " + post) == Err(ArgumentCount)
  {
    CountAppend(pre, post, ' ');
    CountAppend(pre, " ", ' ');
    CountAppend(pre + " ", post, ' ');
  }

  /**
    Python's `round(x, 2)` on the exact value: the nearest multiple of 0.01,
    ties going to the even multiple.
  */
  function Round2(x: real): (r: real)
    ensures (r * 100.0).Floor as real == r * 100.0
    ensures -0.005 <= r - x <= 0.005
  {
    var y := x * 100.0;
    var f := y.Floor;
    var d := y - f as real;
    var n := if d < 0.5 then f else if d > 0.5 then f + 1 else if f % 2 == 0 then f else f + 1;
    n as real / 100.0
  }

  /** A value already in whole hundredths is left as it is. */
  lemma Round2Exact(n: int)
    ensures Round2(n as real / 100.0) == n as real / 100.0
  {
    var y := (n as real / 100.0) * 100.0;
    assert y == n as real;
    assert y.Floor == n;
  }

  /** A tie halfway between two hundredths goes to the even one. */
  lemma Round2HalfEven(n: int)
    ensures Round2((n as real + 0.5) / 100.0) == (if n % 2 == 0 then n else n + 1) as real / 100.0
  {
    var y := ((n as real + 0.5) / 100.0) * 100.0;
    assert y == n as real + 0.5;
    assert y.Floor == n;
  }

  /** `float(rec['unit_value_price'].replace(',', '.'))` on a lookup result; subscripting `None` fails. */
  function RateOf(rec: Option<CurrencyRecord>): Result<real>
  {
    match rec
    case None => Err(UnknownCurrency)
    case Some(c) =>
      match RateValue(c.unitValuePrice)
      case None => Err(BadRate)
      case Some(q) => Ok(q)
  }

  /** A stored rate written the feed's way, `ip,fp`, reads as its decimal value; a missing record is an unknown currency. */
  lemma RateOfStored(c: CurrencyRecord, ip: string, fp: string)
    requires |ip| > 0 && AllDigits(ip) && AllDigits(fp)
    requires c.unitValuePrice == ip + "," + fp
    ensures RateOf(Some(c)) == Ok(DecimalValue(ip, fp))
    ensures RateOf(None) == Err(UnknownCurrency)
  {
    RateValueComma(ip, fp);
  }

  /** From roubles: `round(value / to_value, 2)`, failing on a missing or unreadable rate or a zero one. */
  function FromBase(amount: real, toValue: Result<real>): Result<real>
  {
    if toValue.Err? then toValue
    else if toValue.value == 0.0 then Err(ZeroDivision)
    else Ok(Round2(amount / toValue.value))
  }

  /** To roubles: `round(value * from_value / 1.0, 2)`, the rouble's own rate being the literal 1. */
  function ToBase(amount: real, fromValue: Result<real>): Result<real>
  {
    if fromValue.Err? then fromValue
    else
      var amountInRub := amount * fromValue.value;
      Ok(Round2(amountInRub / 1.0))
  }

  /**
    Between two foreign currencies: `round(value * from_value / to_value, 2)`.
    A failed source rate is reported before a failed target rate, and a zero
    target rate fails. The reference conversion prices through this too.
  */
  function Priced(amount: real, p: Result<real>, q: Result<real>): (r: Result<real>)
    ensures r.Ok? <==> p.Ok? && q.Ok? && q.value != 0.0
    ensures r.Ok? ==> (r.value * 100.0).Floor as real == r.value * 100.0
    ensures r.Ok? ==> -0.005 <= r.value - amount * p.value / q.value <= 0.005
  {
    if p.Err? then p
    else if q.Err? then q
    else if q.value == 0.0 then Err(ZeroDivision)
    else Ok(Round2(amount * p.value / q.value))
  }

  /**
    The conversion of the handler. Both codes are looked up first; the branch
    is chosen by the codes alone. A rouble source never consults its own
    record, so roubles to roubles needs a stored `RUB` record, which the feed
    never has.
  */
  function Convert(snap: Snapshot, req: Request): Result<real>
  {
    var fromData := Lookup(snap, req.from);
    var toData := Lookup(snap, req.to);
    var v := req.value as real;
    if req.from == Base then FromBase(v, RateOf(toData))
    else if req.to == Base then ToBase(v, RateOf(fromData))
    else Priced(v, RateOf(fromData), RateOf(toData))
  }

  /** Price of one unit of `code` in roubles: exactly 1 for the rouble itself, otherwise its stored rate. */
  function UnitRate(snap: Snapshot, code: string): (r: Result<real>)
    ensures code != Base ==> (r == Err(UnknownCurrency) <==> Lookup(snap, code).None?)
  {
    if code == Base then Ok(1.0) else RateOf(Lookup(snap, code))
  }

  /**
    The reference conversion: price the amount in roubles, then in the target
    currency, both through `UnitRate`, and round.
  */
  function Uniform(snap: Snapshot, req: Request): Result<real>
  {
    Priced(req.value as real, UnitRate(snap, req.from), UnitRate(snap, req.to))
  }

  lemma FromBaseIsPriced(amount: real, q: Result<real>)
    ensures FromBase(amount, q) == Priced(amount, Ok(1.0), q)
  {
    if q.Ok? && q.value != 0.0 {
      assert amount * 1.0 / q.value == amount / q.value;
    }
  }

  /** To roubles: the rouble's literal rate 1 is the divisor of the reference. */
  lemma ToBaseIsPriced(amount: real, p: Result<real>)
    ensures ToBase(amount, p) == Priced(amount, p, Ok(1.0))
  {
  }

  /** The three branches agree with the reference, failures included, except for roubles to roubles. */
  lemma ConvertIsUniform(snap: Snapshot, req: Request)
    requires !(req.from == Base && req.to == Base)
    ensures Convert(snap, req) == Uniform(snap, req)
  {
    var v := req.value as real;
    var p := RateOf(Lookup(snap, req.from));
    var q := RateOf(Lookup(snap, req.to));
    if req.from == Base {
      assert UnitRate(snap, req.from) == Ok(1.0);
      assert UnitRate(snap, req.to) == q;
      FromBaseIsPriced(v, q);
      assert Convert(snap, req) == FromBase(v, q);
    } else if req.to == Base {
      assert UnitRate(snap, req.from) == p;
      assert UnitRate(snap, req.to) == Ok(1.0);
      ToBaseIsPriced(v, p);
      assert Convert(snap, req) == ToBase(v, p);
    } else {
      assert UnitRate(snap, req.from) == p;
      assert UnitRate(snap, req.to) == q;
      assert Convert(snap, req) == Priced(v, p, q);
    }
  }

  /** Every number a conversion yields, roubles to roubles aside, is a whole number of hundredths. */
  lemma ConvertRounded(snap: Snapshot, req: Request)
    requires !(req.from == Base && req.to == Base)
    ensures Convert(snap, req).Ok? ==> (Convert(snap, req).value * 100.0).Floor as real == Convert(snap, req).value * 100.0
  {
    ConvertIsUniform(snap, req);
  }

  /** Roubles to roubles is refused although the reference gives the amount back. */
  lemma BaseToBaseRefused(snap: Snapshot, v: int)
    requires Lookup(snap, Base).None?
    ensures Convert(snap, Request(Base, Base, v)) == Err(UnknownCurrency)
    ensures Uniform(snap, Request(Base, Base, v)) == Ok(Round2(v as real))
  {
  }

  /** A code other than `RUB` that the snapshot lacks never yields a number, on either side. */
  lemma UnknownCodeNeverConverts(snap: Snapshot, req: Request)
    requires (req.from != Base && Lookup(snap, req.from).None?) || (req.to != Base && Lookup(snap, req.to).None?)
    ensures Convert(snap, req).Err?
  {
    if req.from == Base && req.to == Base {
    } else {
      ConvertIsUniform(snap, req);
    }
  }

  /** The reply: the converted amount, or the fixed usage message for every failure. */
  datatype Reply = Converted(value: int, from: string, to: string, result: real) | Usage

  /**
    The answer for parsed arguments. The reply names the source currency by
    the code of the record found, which is the requested code itself.
  */
  function Answer(snap: Snapshot, req: Request): (reply: Reply)
    ensures reply == Usage <==> Convert(snap, req).Err?
    ensures reply.Converted? ==> reply.value == req.value && reply.from == req.from && reply.to == req.to
    ensures reply.Converted? ==> reply.result == Convert(snap, req).value
  {
    match Convert(snap, req)
    case Err(_) => Usage
    case Ok(x) => Converted(req.value, req.from, req.to, x)
  }

  /** The whole handler once the snapshot is at hand. */
  function Exchange(text: string, snap: Snapshot): Reply
  {
    match ParseRequest(text)
    case Err(_) => Usage
    case Ok(req) => Answer(snap, req)
  }

  /** A converted reply answers the parsed request with the number the conversion computed. */
  lemma ExchangeResult(text: string, snap: Snapshot)
    requires Exchange(text, snap).Converted?
    ensures ParseRequest(text).Ok? && Convert(snap, ParseRequest(text).value).Ok?
    ensures Exchange(text, snap) == Converted(ParseRequest(text).value.value, ParseRequest(text).value.from,
                                              ParseRequest(text).value.to, Convert(snap, ParseRequest(text).value).value)
  {
  }

  /** Anything but exactly three spaces is answered with the usage message. */
  lemma WrongTokenCountIsUsage(text: string, snap: Snapshot)
    requires Count(text, ' ') != 3
    ensures Exchange(text, snap) == Usage
  {
  }

  /** Every failure of the conversion, and only a failure, becomes the usage message. */
  lemma ExchangeUsageIff(text: string, snap: Snapshot)
    ensures Exchange(text, snap) == Usage <==>
      ParseRequest(text).Err? || Convert(snap, ParseRequest(text).value).Err?
  {
  }
}
