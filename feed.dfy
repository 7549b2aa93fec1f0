/**
  The rate snapshot: the records `update_rates` extracts from the central bank's
  daily feed, the first-match lookup the `/exchange` handler performs on them,
  and the reading of a rate string as a number.
*/
module Feed {
  import opened Options
  import opened PyText

  /**
    One `Valute` element of the feed document. Each child text is `None` when
    the child element is absent, in which case `find(...)` returns nothing and
    reading its `.text` fails.
  */
  datatype ValuteElement = ValuteElement(
    charCode: Option<string>,
    name: Option<string>,
    nominal: Option<string>,
    vunitRate: Option<string>,
    value: Option<string>)

  /** One stored currency record: five raw strings, nothing converted. */
  datatype CurrencyRecord = CurrencyRecord(
    charCode: string,
    name: string,
    nominal: string,
    unitValuePrice: string,
    unitPrice: string)

  /** The list stored under the cache key, in feed order. */
  type Snapshot = seq<CurrencyRecord>

  predicate Complete(e: ValuteElement)
  {
    e.charCode.Some? && e.name.Some? && e.nominal.Some? && e.vunitRate.Some? && e.value.Some?
  }

  /** The record built from a complete element: `VunitRate` goes to `unit_value_price`, `Value` to `unit_price`. */
  function ToRecord(e: ValuteElement): CurrencyRecord
    requires Complete(e)
  {
    CurrencyRecord(e.charCode.value, e.name.value, e.nominal.value, e.vunitRate.value, e.value.value)
  }

  /**
    The list `update_rates` builds: one record per element in document order,
    or nothing at all when any element lacks one of its five children.
  */
  function Extract(doc: seq<ValuteElement>): (r: Option<Snapshot>)
    ensures r.Some? <==> forall i :: 0 <= i < |doc| ==> Complete(doc[i])
    ensures r.Some? ==> |r.value| == |doc|
    ensures r.Some? ==> forall i :: 0 <= i < |doc| ==> r.value[i] == ToRecord(doc[i])
  {
    if doc == [] then Some([])
    else
      var last := doc[|doc| - 1];
      match Extract(doc[..|doc| - 1])
      case None => None
      case Some(rs) => if Complete(last) then Some(rs + [ToRecord(last)]) else None
  }

  /**
    `next((c for c in currencies if c['char_code'] == code), None)`: the
    position of the first record carrying `code`, or `|snap|` when none does.
  */
  function FirstIndex(snap: Snapshot, code: string): (k: nat)
    ensures k <= |snap|
    ensures k < |snap| ==> snap[k].charCode == code
    ensures forall j :: 0 <= j < k ==> snap[j].charCode != code
  {
    if snap == [] then 0
    else if snap[0].charCode == code then 0
    else 1 + FirstIndex(snap[1..], code)
  }

  /** The first record whose code equals `code`, if any. */
  function Lookup(snap: Snapshot, code: string): (r: Option<CurrencyRecord>)
    ensures r.None? <==> forall i :: 0 <= i < |snap| ==> snap[i].charCode != code
    ensures r.Some? ==> r.value.charCode == code && r.value in snap
  {
    var k := FirstIndex(snap, code);
    if k < |snap| then Some(snap[k]) else None
  }

  /** Lookup picks the earliest of several records with the same code. */
  lemma LookupFirst(snap: Snapshot, code: string, i: nat)
    requires i < |snap| && snap[i].charCode == code
    requires forall j :: 0 <= j < i ==> snap[j].charCode != code
    ensures Lookup(snap, code) == Some(snap[i])
  {
  }

  /** Records after the first match are never consulted. */
  lemma LookupIgnoresLater(a: Snapshot, b: Snapshot, code: string)
    requires Lookup(a, code).Some?
    ensures Lookup(a + b, code) == Lookup(a, code)
  {
    var k := FirstIndex(a, code);
    LookupFirst(a + b, code, k);
  }

  /** A rate string as a number: every `,` becomes `.` and the result goes through `float()`. */
  function RateValue(s: string): Option<real>
  {
    ParseFloat(ReplaceChar(s, ',', '.'))
  }

  /** The feed's comma-separated form reads as the decimal it denotes. */
  lemma RateValueComma(ip: string, fp: string)
    requires |ip| > 0 && AllDigits(ip) && AllDigits(fp)
    ensures RateValue(ip + "," + fp) == Some(DecimalValue(ip, fp))
  {
    var s := ip + "," + fp;
    var t := ReplaceChar(s, ',', '.');
    assert forall i :: 0 <= i < |ip| ==> s[i] == ip[i] && IsDigit(ip[i]);
    assert forall i :: 0 <= i < |fp| ==> s[|ip| + 1 + i] == fp[i] && IsDigit(fp[i]);
    assert t == ip + "." + fp;
    ParseFloatParts(ip, fp);
  }

  /** Replacing commas once more changes nothing, so comma and dot spellings read alike. */
  lemma RateValueNormalised(s: string)
    ensures RateValue(ReplaceChar(s, ',', '.')) == RateValue(s)
  {
    var t := ReplaceChar(s, ',', '.');
    assert ReplaceChar(t, ',', '.') == t;
  }
}
