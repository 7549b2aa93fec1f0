/** Worked cases of the conversion, on a snapshot with dollar and euro rates written the feed's way. */
module Scenarios {
  import opened Options
  import opened PyText
  import opened Feed
  import opened Conversion

  const Usd: CurrencyRecord := CurrencyRecord("USD", "Доллар США", "1", "90,0000", "90,0000")
  const Eur: CurrencyRecord := CurrencyRecord("EUR", "Евро", "1", "100,0000", "100,0000")

  lemma Rates()
    ensures RateValue(Usd.unitValuePrice) == Some(90.0)
    ensures RateValue(Eur.unitValuePrice) == Some(100.0)
  {
    UsdRate();
    EurRate();
  }

  lemma UsdRate()
    ensures RateValue(Usd.unitValuePrice) == Some(90.0)
  {
    assert "90" + "," + "0000" == Usd.unitValuePrice;
    RateValueComma("90", "0000");
    NinetyDigits();
    ZeroDigits();
    assert DecimalValue("90", "0000") == 90.0;
  }

  lemma EurRate()
    ensures RateValue(Eur.unitValuePrice) == Some(100.0)
  {
    assert "100" + "," + "0000" == Eur.unitValuePrice;
    RateValueComma("100", "0000");
    HundredDigits();
    ZeroDigits();
    assert DecimalValue("100", "0000") == 100.0;
  }

  lemma NinetyDigits()
    ensures AllDigits("90") && DigitsValue("90") == 90
  {
    assert "90"[..1] == "9";
  }

  lemma HundredDigits()
    ensures AllDigits("100") && DigitsValue("100") == 100
  {
    assert "100"[..2] == "10";
    assert "10"[..1] == "1";
  }

  lemma ZeroDigits()
    ensures AllDigits("0000") && DigitsValue("0000") == 0
  {
    assert "0000"[..3] == "000";
    assert "000"[..2] == "00";
    assert "00"[..1] == "0";
  }

  /** 100 roubles at 90 roubles to the dollar are 1.11 dollars. */
  lemma RoublesToDollars()
    ensures Convert([Usd, Eur], Request("RUB", "USD", 100)) == Ok(1.11)
  {
    Rates();
    var y := (100.0 / 90.0) * 100.0;
    assert 111.0 <= y < 112.0;
    assert y.Floor == 111;
  }

  /** 10 dollars at 90 roubles each are 900 roubles. */
  lemma DollarsToRoubles()
    ensures Convert([Usd, Eur], Request("USD", "RUB", 10)) == Ok(900.0)
  {
    Rates();
    Round2Exact(90000);
  }

  /** 10 dollars at 90 roubles are 9 euros at 100 roubles. */
  lemma DollarsToEuros()
    ensures Convert([Usd, Eur], Request("USD", "EUR", 10)) == Ok(9.0)
  {
    Rates();
    Round2Exact(900);
    assert 10.0 * 90.0 / 100.0 == 900 as real / 100.0 == 9.0;
    assert Priced(10.0, Ok(90.0), Ok(100.0)) == Ok(Round2(900 as real / 100.0));
    assert Lookup([Usd, Eur], "USD") == Some(Usd) by {
      LookupFirst([Usd, Eur], "USD", 0);
    }
    assert Lookup([Usd, Eur], "EUR") == Some(Eur) by {
      LookupFirst([Usd, Eur], "EUR", 1);
    }
    assert RateOf(Some(Usd)) == Ok(90.0);
    assert RateOf(Some(Eur)) == Ok(100.0);
  }

  /** Roubles to roubles is answered with the usage message, not the amount. */
  lemma RoublesToRoubles(v: int)
    ensures Answer([Usd, Eur], Request("RUB", "RUB", v)) == Usage
  {
    BaseToBaseRefused([Usd, Eur], v);
  }

  /** A code the snapshot lacks is refused on either side. */
  lemma UnknownCode(v: int)
    ensures Answer([Usd, Eur], Request("GBP", "RUB", v)) == Usage
    ensures Answer([Usd, Eur], Request("RUB", "GBP", v)) == Usage
  {
    UnknownCodeNeverConverts([Usd, Eur], Request("GBP", "RUB", v));
    UnknownCodeNeverConverts([Usd, Eur], Request("RUB", "GBP", v));
  }

  lemma UpperCodes()
    ensures Upper("usd") == "USD" && Upper("rub") == "RUB"
  {
    var u, r := Upper("usd"), Upper("rub");
    assert u[0] == 'U' && u[1] == 'S' && u[2] == 'D';
    assert r[0] == 'R' && r[1] == 'U' && r[2] == 'B';
  }

  /** The whole command, typed in lower case (`/exchange usd rub 10`), converts 10 dollars to 900 roubles. */
  lemma LowerCaseCommand(cmd: string)
    requires ' ' !in cmd
    ensures Exchange(cmd + " " + "usd" + " " + "rub" + " " + IntToString(10), [Usd, Eur]) == Converted(10, "USD", "RUB", 900.0)
  {
    var text := cmd + " " + "usd" + " " + "rub" + " " + IntToString(10);
    var req := Request("USD", "RUB", 10);
    UpperCodes();
    assert ParseRequest(text) == Ok(req) by {
      ParseRequestAccepts(cmd, "usd", "rub", 10);
    }
    assert Convert([Usd, Eur], req) == Ok(900.0) by {
      DollarsToRoubles();
    }
    assert Exchange(text, [Usd, Eur]) == Answer([Usd, Eur], req);
  }

  /** Doubling the space between the two codes of a well-formed command makes a fifth token and the usage message. */
  lemma DoubledSpace(cmd: string, a: string, b: string, n: int, snap: Snapshot)
    requires ' ' !in cmd && ' ' !in a && ' ' !in b
    ensures Exchange(cmd + " " + a + "  " + b + " " + IntToString(n), snap) == Usage
  {
    var amount := IntToString(n);
    var pre := cmd + " " + a + " ";
    var post := b + " " + amount;
    JoinSpaced(cmd, a, b, amount);
    SplitJoin([cmd, a, b, amount], ' ');
    assert pre + post == cmd + " " + a + " " + b + " " + amount;
    assert Count(pre + post, ' ') == 3;
    assert pre + " " + post == cmd + " " + a + "  " + b + " " + amount;
    ExtraSpaceRejected(pre, post);
  }
}
