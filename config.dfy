/** The widget's settings record, its defaults, the record it persists,
    how a saved record is merged over the defaults on load, and the rule
    that turns the interval input into a refresh period. */
module Config {
  import opened Wrappers
  import opened Balances
  import opened JsParseInt

  /** The module-level `settings`: the API key, whether to refresh
      automatically, the refresh period in seconds and the last balance
      fetched (`None` for `null`). */
  datatype Settings = Settings(apiKey: string, autoRefresh: bool, refreshInterval: int, lastBalance: Option<Balance>)

  /** `DEFAULT_SETTINGS`: no key, refresh every 900 seconds, no balance. */
  const Defaults: Settings := Settings("", true, 900, None)

  /** A record as the host's settings store returns it: each field may be
      absent. */
  datatype SavedRecord = SavedRecord(
    apiKey: Option<string>,
    autoRefresh: Option<bool>,
    refreshInterval: Option<int>,
    lastBalance: Option<Option<Balance>>)

  /** `{...DEFAULT_SETTINGS, ...saved}`: a field present in the saved record
      wins, an absent one keeps its default (stated by `OverlayMissingFields`).
      The settings loaded record back to the saved record exactly when it
      had every field. */
  function Overlay(saved: SavedRecord): (r: Settings)
    ensures saved.apiKey.Some? ==> r.apiKey == saved.apiKey.value
    ensures saved.autoRefresh.Some? ==> r.autoRefresh == saved.autoRefresh.value
    ensures saved.refreshInterval.Some? ==> r.refreshInterval == saved.refreshInterval.value
    ensures saved.lastBalance.Some? ==> r.lastBalance == saved.lastBalance.value
    ensures Record(r) == saved <==>
      saved.apiKey.Some? && saved.autoRefresh.Some? && saved.refreshInterval.Some? && saved.lastBalance.Some?
  {
    Settings(
      saved.apiKey.GetOr(Defaults.apiKey),
      saved.autoRefresh.GetOr(Defaults.autoRefresh),
      saved.refreshInterval.GetOr(Defaults.refreshInterval),
      saved.lastBalance.GetOr(Defaults.lastBalance))
  }

  /** The record `saveExtensionSettings` receives: every field of `s`, none
      left out. */
  function Record(s: Settings): (r: SavedRecord)
    ensures r.apiKey.Some? && r.autoRefresh.Some? && r.refreshInterval.Some? && r.lastBalance.Some?
  {
    SavedRecord(Some(s.apiKey), Some(s.autoRefresh), Some(s.refreshInterval), Some(s.lastBalance))
  }

  /** Loading what was saved gives back exactly the settings saved. */
  lemma OverlayRecord(s: Settings)
    ensures Overlay(Record(s)) == s
  {
  }

  /** A saved record that lacks a field leaves that field at its default,
      and a saved record with nothing in it loads as the defaults. */
  lemma OverlayMissingFields(saved: SavedRecord)
    ensures saved.apiKey.None? ==> Overlay(saved).apiKey == ""
    ensures saved.autoRefresh.None? ==> Overlay(saved).autoRefresh
    ensures saved.refreshInterval.None? ==> Overlay(saved).refreshInterval == 900
    ensures saved.lastBalance.None? ==> Overlay(saved).lastBalance.None?
    ensures Overlay(SavedRecord(None, None, None, None)) == Defaults
  {
  }

  /** Loading applies no clamp: a stored period below 60 seconds, zero or
      negative is taken as it is. */
  lemma OverlayKeepsInterval(saved: SavedRecord, i: int)
    requires saved.refreshInterval == Some(i)
    ensures Overlay(saved).refreshInterval == i
  {
  }

  /** `Math.max(60, parseInt(input) || 900)`: `NaN` and 0 are falsy and
      fall back to 900 seconds; any other value is raised to at least 60. */
  function EffectiveInterval(input: string): (r: int)
    ensures r >= 60
    ensures ParseInt(input) == NaN || ParseInt(input) == Int(0) ==> r == 900
    ensures ParseInt(input).Int? && ParseInt(input).value != 0 ==>
      r == if ParseInt(input).value < 60 then 60 else ParseInt(input).value
  {
    match ParseInt(input)
    case NaN => 900
    case Int(n) => if n == 0 then 900 else if n < 60 then 60 else n
  }

  /** A run of decimal digits of value `n`, leading zeros allowed, possibly
      signed and followed by other text, gives 900 when `n` is zero, 60 when
      it is negative and otherwise `n` raised to at least 60. */
  lemma IntervalOfNumeral(ws: string, sign: string, d: string, n: nat, rest: string)
    requires forall i :: 0 <= i < |ws| ==> IsStrWhiteSpace(ws[i])
    requires sign == "" || sign == "+" || sign == "-"
    requires IsDecimalRun(d) && n == DigitsValue(d, Decimal)
    requires EndsRun(d, rest)
    ensures EffectiveInterval(ws + (sign + (d + rest))) ==
      if n == 0 then 900 else if sign == "-" || n < 60 then 60 else n
  {
    ParseIntOfDecimal(ws, sign, d, n, rest);
  }

  /** Input whose part after white space and one optional sign does not
      start with a digit, such as `".5"`, gives 900. */
  lemma IntervalOfNonNumeral(input: string)
    requires UnsignedPart(input) == [] || !IsDigit(UnsignedPart(input)[0], Decimal)
    ensures EffectiveInterval(input) == 900
  {
    NotNumeralIsNaN(input);
  }

  /** Input with no decimal digit, the empty string included, gives 900. */
  lemma IntervalOfNonNumeric(input: string)
    requires NoDecimalDigit(input)
    ensures EffectiveInterval(input) == 900
  {
    NoDigitIsNaN(input);
  }
}

/** Worked values of the interval rule `Math.max(60, parseInt(v) || 900)`. */
module IntervalExamples {
  import opened JsParseInt
  import opened Config

  /** Below the minimum: raised to 60 seconds. */
  lemma Thirty()
    ensures EffectiveInterval("30") == 60
  {
    assert DecimalString(30) == "30" by {
      assert DecimalString(3) == "3";
    }
    IntervalOfNumeral("", "", "30", 30, "");
    assert "" + ("" + ("30" + "")) == "30";
  }

  lemma FortyFive()
    ensures EffectiveInterval("45") == 60
  {
    assert DecimalString(45) == "45" by {
      assert DecimalString(4) == "4";
    }
    IntervalOfNumeral("", "", "45", 45, "");
    assert "" + ("" + ("45" + "")) == "45";
  }

  /** A negative period is raised to the minimum too. */
  lemma MinusFive()
    ensures EffectiveInterval("-5") == 60
  {
    assert DecimalString(5) == "5";
    IntervalOfNumeral("", "-", "5", 5, "");
    assert "" + ("-" + ("5" + "")) == "-5";
  }

  /** A period of 60 seconds or more is taken as typed. */
  lemma OneTwenty()
    ensures EffectiveInterval("120") == 120
  {
    assert DecimalString(120) == "120" by {
      assert DecimalString(12) == "12" by {
        assert DecimalString(1) == "1";
      }
    }
    IntervalOfNumeral("", "", "120", 120, "");
    assert "" + ("" + ("120" + "")) == "120";
  }

  /** Zero is falsy and falls back to the default. */
  lemma Zero()
    ensures EffectiveInterval("0") == 900
  {
    assert DecimalString(0) == "0";
    IntervalOfNumeral("", "", "0", 0, "");
    assert "" + ("" + ("0" + "")) == "0";
  }

  /** Text without digits, and an empty field, fall back to the default. */
  lemma Letters()
    ensures EffectiveInterval("abc") == 900
  {
    IntervalOfNonNumeric("abc");
  }

  /** Leading zeros are read as decimal digits: `"0120"` is 120. */
  lemma LeadingZero()
    ensures EffectiveInterval("0120") == 120
  {
    assert DigitsValue("0120", Decimal) == 120 by {
      assert "0120"[..3] == "012";
      assert "012"[..2] == "01";
      assert "01"[..1] == "0";
      assert "0"[..0] == "";
    }
    IntervalOfNumeral("", "", "0120", 120, "");
    assert "" + ("" + ("0120" + "")) == "0120";
  }

  /** A fraction without an integer part does not parse: `".5"` gives 900. */
  lemma HalfWithoutZero()
    ensures EffectiveInterval(".5") == 900
  {
    assert TrimStart(".5") == ".5" by {
      assert !IsStrWhiteSpace('.');
    }
    assert UnsignedPart(".5") == ".5";
    assert !IsDigit('.', Decimal);
    IntervalOfNonNumeral(".5");
  }

  lemma Empty()
    ensures EffectiveInterval("") == 900
  {
    IntervalOfNonNumeric("");
  }
}
