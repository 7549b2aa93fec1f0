/** The text of the `/rates` reply: a fixed header, then one line per stored record. */
module Listing {
  import opened PyText
  import opened Feed

  const RatesHeader: string := "*Актуальные курсы валют:*\n\n"

  /** The line for one record; `unit_value_price` appears exactly as stored, comma and all. */
  function RateLine(c: CurrencyRecord): string
  {
    "- 1 *" + c.charCode + "/RUB*: = `" + c.unitValuePrice + "`₽\n"
  }

  /** The lines of all records, in stored order. */
  function RateLines(snap: Snapshot): string
  {
    if snap == [] then "" else RateLines(snap[..|snap| - 1]) + RateLine(snap[|snap| - 1])
  }

  function RatesText(snap: Snapshot): string
  {
    RatesHeader + RateLines(snap)
  }

  lemma {:induction false} RateLinesAppend(a: Snapshot, b: Snapshot)
    ensures RateLines(a + b) == RateLines(a) + RateLines(b)
    decreases |b|
  {
    if b == [] {
      assert a + b == a;
    } else {
      var ab, init, last := a + b, b[..|b| - 1], b[|b| - 1];
      assert ab[..|ab| - 1] == a + init;
      assert ab[|ab| - 1] == last;
      assert RateLines(ab) == RateLines(a + init) + RateLine(last);
      assert RateLines(b) == RateLines(init) + RateLine(last);
      RateLinesAppend(a, init);
      assert RateLines(ab) == RateLines(a) + RateLines(init) + RateLine(last);
    }
  }

  /** Record `i`'s line sits between the lines of the records before it and those after it. */
  lemma {:induction false} RateLinesAt(snap: Snapshot, i: nat)
    requires i < |snap|
    ensures RateLines(snap) == RateLines(snap[..i]) + RateLine(snap[i]) + RateLines(snap[i + 1..])
  {
    var pre, mid, post := snap[..i], [snap[i]], snap[i + 1..];
    assert snap == (pre + mid) + post;
    RateLinesAppend(pre + mid, post);
    assert RateLines(snap) == RateLines(pre + mid) + RateLines(post);
    RateLinesAppend(pre, mid);
    assert RateLines(pre + mid) == RateLines(pre) + RateLines(mid);
    assert mid[..0] == [];
    assert RateLines(mid) == RateLines([]) + RateLine(snap[i]);
    assert RateLines(mid) == RateLine(snap[i]);
  }

  predicate SingleLine(c: CurrencyRecord)
  {
    '\n' !in c.charCode && '\n' !in c.unitValuePrice
  }

  lemma RateLineCount(c: CurrencyRecord)
    requires SingleLine(c)
    ensures Count(RateLine(c), '\n') == 1
  {
    var body := "- 1 *" + c.charCode + "/RUB*: = `" + c.unitValuePrice + "`₽";
    assert RateLine(c) == body + "\n";
    assert '\n' !in body;
    CountNone(body, '\n');
    CountAppend(body, "\n", '\n');
  }

  /** The listing has the header's line breaks plus exactly one line per record. */
  lemma {:induction false} RatesTextLineCount(snap: Snapshot)
    requires forall i :: 0 <= i < |snap| ==> SingleLine(snap[i])
    ensures Count(RatesText(snap), '\n') == Count(RatesHeader, '\n') + |snap|
  {
    RateLinesLineCount(snap);
    CountAppend(RatesHeader, RateLines(snap), '\n');
  }

  lemma {:induction false} RateLinesLineCount(snap: Snapshot)
    requires forall i :: 0 <= i < |snap| ==> SingleLine(snap[i])
    ensures Count(RateLines(snap), '\n') == |snap|
  {
    if snap != [] {
      var init := snap[..|snap| - 1];
      RateLinesLineCount(init);
      RateLineCount(snap[|snap| - 1]);
      CountAppend(RateLines(init), RateLine(snap[|snap| - 1]), '\n');
    }
  }
}
