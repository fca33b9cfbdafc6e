/** Two defects of the widget as written, each shown on a concrete input
    and next to a corrected definition with the intended property proved.

    1. The key is held in memory in two forms. After `saveSettings` it is
       the plaintext; after `loadSettings` it is the base64 form that was
       persisted. `checkBalance` always decodes it, so the right key is sent
       only after a load.

    2. The refresh period has no upper bound. The host converts
       `refreshInterval * 1000` to a signed 32-bit `long`, so a period of
       2^31 ms or more no longer means what was typed: from 2147484 seconds
       up to 2^32 ms it wraps negative and the timer fires with no delay at
       all. The form's own `max="86400"` says what was meant. */
module Findings {
  import opened Wrappers
  import opened Base64Digits
  import opened Base64
  import opened Balances
  import opened Config
  import opened Timers
  import opened JsParseInt
  import opened BalanceWidget

  // ---------------------------------------------------------------------
  // 1. The in-memory key

  /** As written, after a save: the memory key is the plaintext, and the
      header built from it never carries that key. A key with a character
      outside the base64 alphabet (`sk-test`) makes `atob` throw, so no
      request is made at all; any other key is sent decoded a second time,
      and so shorter than typed. */
  lemma SavedKeyIsNotSent(key: string)
    ensures BearerHeader(key) != Some("Bearer " + key)
  {
    if BearerHeader(key).Some? {
      AtobShrinks(key);
      assert |BearerHeader(key).value| < |"Bearer " + key|;
    }
  }

  /** The concrete case: a key of the provider's `sk-` form, once saved,
      yields no request. */
  lemma SkKeyAfterSave()
    ensures BearerHeader("sk-test") == None
  {
    ForeignCharacterFails("sk-test", 2);
  }

  /** As written, after a load: the memory key is what was persisted, the
      `btoa` form, and the header carries the key that was typed. */
  lemma LoadedKeyIsSent(s: Settings, key: string)
    requires IsLatin1(key) && key != ""
    ensures var loaded := Overlay(Record(s.(apiKey := Btoa(key).value)));
      BearerHeader(loaded.apiKey) == Some("Bearer " + key)
  {
    RoundTrip(key);
    OverlayRecord(s.(apiKey := Btoa(key).value));
    assert Btoa(key).value != "" by {
      assert |EncodeGroups(key)| > 0;
    }
  }

  /** The widget as written, saving a key and then checking the balance:
      the header sent is never the one for the key typed in. */
  method SaveThenCheck(w: Widget, key: string, autoInput: bool, intervalInput: string, reply: Reply)
    returns (request: Option<string>)
    requires w.Valid()
    modifies w`settings, w`store, w`armed, w`refreshTimer, w`nextHandle, w`page
    ensures request != Some("Bearer " + key)
  {
    var _ := w.SaveSettings(key, autoInput, intervalInput);
    var _, r := w.CheckBalance(reply);
    SavedKeyIsNotSent(key);
    request := r;
  }

  /** The widget as written, loading a record saved with a key and then
      checking the balance: the header carries that key. */
  method LoadThenCheck(w: Widget, key: string, reply: Reply) returns (request: Option<string>)
    requires w.Valid() && IsLatin1(key) && key != ""
    requires w.store.Some? && w.store.value.apiKey == Some(Btoa(key).value)
    modifies w`settings, w`armed, w`refreshTimer, w`nextHandle, w`page
    ensures request == Some("Bearer " + key)
  {
    w.Init();
    RoundTrip(key);
    assert Btoa(key).value != "" by {
      assert |EncodeGroups(key)| > 0;
    }
    var _, r := w.CheckBalance(reply);
    request := r;
  }

  /** Corrected load: the persisted key is decoded when it is read back, so
      memory always holds the plaintext. A stored key that is not valid
      base64 is kept as it is. */
  function LoadFixed(saved: SavedRecord): (s: Settings)
    ensures s == Overlay(saved).(apiKey := s.apiKey)
    ensures Atob(Overlay(saved).apiKey).Some? ==> s.apiKey == Atob(Overlay(saved).apiKey).value
    ensures Atob(Overlay(saved).apiKey).None? ==> s.apiKey == Overlay(saved).apiKey
  {
    var merged := Overlay(saved);
    merged.(apiKey := Atob(merged.apiKey).GetOr(merged.apiKey))
  }

  /** Corrected header: the memory key, now always plaintext, is sent as it
      is. */
  function BearerHeaderFixed(plainKey: string): (h: Option<string>)
    ensures h.None? <==> plainKey == ""
    ensures h.Some? ==> h.value == "Bearer " + plainKey
  {
    if plainKey == "" then None else Some("Bearer " + plainKey)
  }

  /** With the correction, both paths send the key typed in: directly after
      the save, and after the saved record is loaded back. */
  lemma FixedKeySentOnBothPaths(s: Settings, key: string)
    requires IsLatin1(key) && key != ""
    ensures BearerHeaderFixed(key) == Some("Bearer " + key)
    ensures var loaded := LoadFixed(Record(s.(apiKey := Btoa(key).value)));
      loaded.apiKey == key && BearerHeaderFixed(loaded.apiKey) == Some("Bearer " + key)
  {
    RoundTrip(key);
    OverlayRecord(s.(apiKey := Btoa(key).value));
  }

  // ---------------------------------------------------------------------
  // 2. The refresh period

  /** As written: any numeral from 2147484 to 4294967 seconds is accepted
      as the period, and the host then arms the timer with no delay. */
  lemma LongPeriodFiresAtOnce(n: nat)
    requires 2147484 <= n <= 4294967
    ensures EffectiveInterval(DecimalString(n)) == n
    ensures HostDelay(EffectiveInterval(DecimalString(n)) * 1000) == 0
  {
    IntervalOfNumeral("", "", DecimalString(n), n, "");
    assert "" + ("" + (DecimalString(n) + "")) == DecimalString(n);
    WrappedPeriodFiresAtOnce(n * 1000);
  }

  /** As written: no period of 2147484 seconds or more is waited as typed. */
  lemma LongPeriodNotHonoured(input: string)
    requires EffectiveInterval(input) >= 2147484
    ensures HostDelay(EffectiveInterval(input) * 1000) != EffectiveInterval(input) * 1000
  {
  }

  const MaxInterval: int := 86400

  /** Corrected rule: the same clamp and default, bounded above by the
      form's `max` of 86400 seconds (one day). */
  function BoundedInterval(input: string): (r: int)
    ensures 60 <= r <= MaxInterval
    ensures r == EffectiveInterval(input) || r == MaxInterval
    ensures HostDelay(r * 1000) == r * 1000
  {
    var r := EffectiveInterval(input);
    if r > MaxInterval then MaxInterval else r
  }

  /** Within the form's range the corrected rule is the rule as written. */
  lemma BoundedAgreesInRange(input: string)
    requires EffectiveInterval(input) <= MaxInterval
    ensures BoundedInterval(input) == EffectiveInterval(input)
  {
  }
}
