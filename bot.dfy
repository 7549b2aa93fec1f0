/**
  The two handlers that read the rate cache, and the refresh that fills it.
  The cache is a key-value store holding the snapshot under one key with an
  expiry; the feed fetched on a refresh is a parameter (`None` when the
  download or the XML parse fails).
*/
module Bot {
  import opened Options
  import opened Feed
  import opened Listing
  import opened Conversion

  const CurrenciesKey: string := "currencies"
  const ExpirySeconds: nat := 3600

  /**
    The key-value store. Values are the snapshots the bot wrote (their JSON
    text read back as written); `ttl` is the expiry each key was last written
    with, and `sets` counts write operations.
  */
  class Store {
    var values: map<string, Snapshot>
    var ttl: map<string, nat>
    var sets: nat

    constructor ()
      ensures values == map[] && ttl == map[] && sets == 0
    {
      values := map[];
      ttl := map[];
      sets := 0;
    }

    /** `GET key`: the stored value, or nothing when the key is absent or has expired. */
    function Get(key: string): Option<Snapshot>
      reads this
    {
      if key in values then Some(values[key]) else None
    }

    /** `SET key value EX seconds`. */
    method Set(key: string, value: Snapshot, ex: nat)
      modifies this
      ensures values == old(values)[key := value]
      ensures ttl == old(ttl)[key := ex]
      ensures sets == old(sets) + 1
      ensures Get(key) == Some(value)
      ensures forall k :: k != key ==> Get(k) == old(Get(k))
    {
      values := values[key := value];
      ttl := ttl[key := ex];
      sets := sets + 1;
    }

    /** The expiry of a key running out: an event outside the bot. */
    method Expire(key: string)
      modifies this
      ensures values == old(values) - {key}
      ensures ttl == old(ttl) - {key}
      ensures sets == old(sets)
    {
      values := values - {key};
      ttl := ttl - {key};
    }
  }

  /**
    `if not data`: the stored text is JSON, and the JSON text of a list is
    never empty, so a value that is present is a hit even when the list in it
    is empty.
  */
  predicate IsHit(data: Option<Snapshot>)
  {
    data.Some?
  }

  /** What a refresh stores: the records of the fetched feed, if it was fetched and every element is complete. */
  function Refresh(feed: Option<seq<ValuteElement>>): (r: Option<Snapshot>)
    ensures r.Some? <==> feed.Some? && forall i :: 0 <= i < |feed.value| ==> Complete(feed.value[i])
    ensures r.Some? ==> |r.value| == |feed.value|
    ensures r.Some? ==> forall i :: 0 <= i < |r.value| ==> r.value[i] == ToRecord(feed.value[i])
  {
    if feed.None? then None else Extract(feed.value)
  }

  /** The snapshot a handler ends up with: the cached one on a hit, the refreshed one on a miss. */
  function Loaded(cached: Option<Snapshot>, feed: Option<seq<ValuteElement>>): Option<Snapshot>
  {
    if IsHit(cached) then cached else Refresh(feed)
  }

  /**
    `update_rates`: build the record list element by element, then store it
    under the key with a one-hour expiry. An element missing a child stops the
    loop before anything is written.
  */
  method UpdateRates(r: Store, feed: Option<seq<ValuteElement>>) returns (ok: bool)
    modifies r
    ensures ok <==> Refresh(feed).Some?
    ensures ok ==> r.values == old(r.values)[CurrenciesKey := Refresh(feed).value]
    ensures ok ==> r.ttl == old(r.ttl)[CurrenciesKey := ExpirySeconds]
    ensures ok ==> r.sets == old(r.sets) + 1
    ensures !ok ==> unchanged(r)
  {
    if feed.None? {
      return false;
    }
    var doc := feed.value;
    var currencies: seq<CurrencyRecord> := [];
    for i := 0 to |doc|
      invariant Extract(doc[..i]) == Some(currencies)
    {
      var e := doc[i];
      if e.charCode.None? || e.name.None? || e.nominal.None? || e.vunitRate.None? || e.value.None? {
        return false;
      }
      currencies := currencies + [CurrencyRecord(e.charCode.value, e.name.value, e.nominal.value, e.vunitRate.value, e.value.value)];
      assert doc[..i + 1][..i] == doc[..i];
    }
    assert doc[..|doc|] == doc;
    r.Set(CurrenciesKey, currencies, ExpirySeconds);
    ok := true;
  }

  /**
    The read, refresh-on-miss, read-again sequence both handlers run.
    `refreshed` says whether a refresh was attempted; `data` is `None` when
    the refresh failed, the failure the handler then sees.
  */
  method LoadCurrencies(r: Store, feed: Option<seq<ValuteElement>>) returns (data: Option<Snapshot>, refreshed: bool)
    modifies r
    ensures refreshed <==> !IsHit(old(r.Get(CurrenciesKey)))
    ensures data == Loaded(old(r.Get(CurrenciesKey)), feed)
    ensures !refreshed ==> unchanged(r)
    ensures refreshed && data.Some? ==>
      r.values == old(r.values)[CurrenciesKey := data.value] &&
      r.ttl == old(r.ttl)[CurrenciesKey := ExpirySeconds] &&
      r.sets == old(r.sets) + 1
    ensures refreshed && data.None? ==> unchanged(r)
  {
    data := r.Get(CurrenciesKey);
    refreshed := false;
    if !IsHit(data) {
      refreshed := true;
      var ok := UpdateRates(r, feed);
      if !ok {
        return None, refreshed;
      }
      data := r.Get(CurrenciesKey);
    }
  }

  /**
    `/rates`: the header, then one line per record in stored order. A failed
    refresh raises out of the handler, so there is no reply at all.
  */
  method RatesHandler(r: Store, feed: Option<seq<ValuteElement>>) returns (reply: Option<string>)
    modifies r
    ensures Loaded(old(r.Get(CurrenciesKey)), feed).None? ==> reply.None? && unchanged(r)
    ensures Loaded(old(r.Get(CurrenciesKey)), feed).Some? ==>
      reply == Some(RatesText(Loaded(old(r.Get(CurrenciesKey)), feed).value))
    ensures IsHit(old(r.Get(CurrenciesKey))) ==> unchanged(r)
    ensures !IsHit(old(r.Get(CurrenciesKey))) && Loaded(old(r.Get(CurrenciesKey)), feed).Some? ==>
      r.values == old(r.values)[CurrenciesKey := Loaded(old(r.Get(CurrenciesKey)), feed).value] &&
      r.ttl == old(r.ttl)[CurrenciesKey := ExpirySeconds] &&
      r.sets == old(r.sets) + 1
  {
    var data, _ := LoadCurrencies(r, feed);
    if data.None? {
      return None;
    }
    var currencies := data.value;
    var messageText := RatesHeader;
    for i := 0 to |currencies|
      invariant messageText == RatesHeader + RateLines(currencies[..i])
    {
      messageText := messageText + RateLine(currencies[i]);
      assert currencies[..i + 1][..i] == currencies[..i];
    }
    assert currencies[..|currencies|] == currencies;
    reply := Some(messageText);
  }

  /**
    `/exchange`: the arguments are checked before the cache is touched, so
    malformed input neither reads nor refreshes it; every later failure,
    a failed refresh included, is answered with the usage message.
  */
  method ExchangeHandler(r: Store, text: string, feed: Option<seq<ValuteElement>>) returns (reply: Reply)
    modifies r
    ensures ParseRequest(text).Err? ==> reply == Usage && unchanged(r)
    ensures ParseRequest(text).Ok? && Loaded(old(r.Get(CurrenciesKey)), feed).None? ==> reply == Usage && unchanged(r)
    ensures ParseRequest(text).Ok? && Loaded(old(r.Get(CurrenciesKey)), feed).Some? ==>
      reply == Exchange(text, Loaded(old(r.Get(CurrenciesKey)), feed).value)
    ensures IsHit(old(r.Get(CurrenciesKey))) ==> unchanged(r)
    ensures ParseRequest(text).Ok? && !IsHit(old(r.Get(CurrenciesKey))) && Loaded(old(r.Get(CurrenciesKey)), feed).Some? ==>
      r.values == old(r.values)[CurrenciesKey := Loaded(old(r.Get(CurrenciesKey)), feed).value] &&
      r.ttl == old(r.ttl)[CurrenciesKey := ExpirySeconds] &&
      r.sets == old(r.sets) + 1
  {
    var parsed := ParseRequest(text);
    if parsed.Err? {
      return Usage;
    }
    var data, _ := LoadCurrencies(r, feed);
    if data.None? {
      return Usage;
    }
    reply := Answer(data.value, parsed.value);
  }

  /**
    The cache protocol over two requests: a successful refresh on the first
    makes the second a hit, so the pair writes at most once.
  */
  method TwoLoads(r: Store, feed1: Option<seq<ValuteElement>>, feed2: Option<seq<ValuteElement>>)
    returns (first: Option<Snapshot>, second: Option<Snapshot>)
    modifies r
    ensures first.Some? ==> second == first
    ensures r.sets <= old(r.sets) + 1
    ensures IsHit(old(r.Get(CurrenciesKey))) ==> r.sets == old(r.sets)
  {
    var refreshed1, refreshed2;
    first, refreshed1 := LoadCurrencies(r, feed1);
    second, refreshed2 := LoadCurrencies(r, feed2);
    assert first.Some? ==> !refreshed2;
  }
}
