/** The widget's module-level state and the handlers that change it:
    loading and saving the settings, arming and cancelling the refresh
    timer, fetching the balance and writing it into the panel. */
module BalanceWidget {
  import opened Wrappers
  import opened Base64Digits
  import opened Base64
  import opened Balances
  import opened Config
  import opened Timers

  /** The `Authorization` header value `checkBalance` builds and hands to
      `fetch` for the key held in memory: `None` when the key is empty (no
      request is made) or when `atob` throws on it (the request is never
      built). */
  function BearerHeader(memoryKey: string): (h: Option<string>)
    ensures h.Some? <==> memoryKey != "" && Atob(memoryKey).Some?
    ensures h.Some? ==> Atob(memoryKey).Some? && h.value == "Bearer " + Atob(memoryKey).value
  {
    if memoryKey == "" then None
    else match Atob(memoryKey)
      case None => None
      case Some(key) => Some("Bearer " + key)
  }

  class Widget {
    /** `settings`. */
    var settings: Settings
    /** `refreshTimer`: the last handle `setInterval` returned, kept after
        it has been cancelled. */
    var refreshTimer: Option<Interval>
    /** The timers the host currently has armed for this widget. */
    ghost var armed: set<Interval>
    /** The handle the host gives the next timer. */
    var nextHandle: nat
    /** The host's settings slot for this extension. */
    var store: Option<SavedRecord>
    /** The panel: the selector of every element present, with what it
        shows. */
    var page: map<string, JsValue>

    /** Only the timer `refreshTimer` names can be armed, and its handle is
        one the host has already given out. */
    ghost predicate Valid()
      reads this
    {
      match refreshTimer
      case None => armed == {}
      case Some(t) => armed <= {t} && t.handle < nextHandle
    }

    /** The timer state `startAutoRefresh` leaves behind when the previous
        timer was `prev` and the host's next handle was `prevNext`: `prev`
        is cancelled; with auto-refresh on, exactly one new timer with the
        configured period is armed, otherwise none is. */
    ghost predicate Rearmed(prev: Option<Interval>, prevNext: nat)
      reads this
    {
      (prev.Some? ==> prev.value !in armed)
      && if settings.autoRefresh then
           refreshTimer == Some(Interval(prevNext, settings.refreshInterval * 1000))
           && armed == {refreshTimer.value} && nextHandle == prevNext + 1
         else
           refreshTimer == prev && armed == {} && nextHandle == prevNext
    }

    /** The state when the script is evaluated: `settings` a copy of the
        defaults, no timer. The host's settings slot and the panel are
        given. */
    constructor (saved: Option<SavedRecord>, panel: map<string, JsValue>)
      ensures Valid()
      ensures settings == Defaults && refreshTimer == None && armed == {}
      ensures store == saved && page == panel
    {
      settings := Defaults;
      refreshTimer := None;
      armed := {};
      nextHandle := 1;
      store := saved;
      page := panel;
    }

    /** `clearInterval(refreshTimer)`: a missing or already cancelled timer
        is ignored. */
    method CancelTimer()
      requires Valid()
      modifies this`armed
      ensures Valid() && armed == {}
    {
      if refreshTimer.Some? {
        armed := armed - {refreshTimer.value};
      }
    }

    /** `startAutoRefresh`: cancel, then arm a new timer of
        `refreshInterval * 1000` ms when `autoRefresh` holds. */
    method StartAutoRefresh()
      requires Valid()
      modifies this`armed, this`refreshTimer, this`nextHandle
      ensures Valid() && Rearmed(old(refreshTimer), old(nextHandle))
    {
      CancelTimer();
      if settings.autoRefresh {
        var t := Interval(nextHandle, settings.refreshInterval * 1000);
        nextHandle := nextHandle + 1;
        refreshTimer := Some(t);
        armed := armed + {t};
      }
    }

    /** The extension's `unload` hook: cancel the timer. */
    method Unload()
      requires Valid()
      modifies this`armed
      ensures Valid() && armed == {}
    {
      CancelTimer();
    }

    /** `loadSettings`: a saved record is merged over the defaults; with
        none, `settings` is left as it is. */
    method LoadSettings()
      modifies this`settings
      ensures store.Some? ==> settings == Overlay(store.value)
      ensures store.None? ==> settings == old(settings)
    {
      if store.Some? {
        settings := Overlay(store.value);
      }
    }

    /** `init`: load the settings, then start the timer. */
    method Init()
      requires Valid()
      modifies this`settings, this`armed, this`refreshTimer, this`nextHandle
      ensures Valid() && Rearmed(old(refreshTimer), old(nextHandle))
      ensures store.Some? ==> settings == Overlay(store.value)
      ensures store.None? ==> settings == old(settings)
    {
      LoadSettings();
      StartAutoRefresh();
    }

    /** `saveSettings` with the three form values. The key is encoded with
        `btoa`, persisted, then decoded back in memory, and the timer is
        restarted. `btoa` throws on a key with a character above U+00FF:
        the handler then stops after updating the in-memory fields, and
        `completed` is false. */
    method SaveSettings(keyInput: string, autoInput: bool, intervalInput: string) returns (completed: bool)
      requires Valid()
      modifies this`settings, this`store, this`armed, this`refreshTimer, this`nextHandle
      ensures Valid()
      ensures completed <==> IsLatin1(keyInput)
      ensures settings == old(settings).(apiKey := keyInput, autoRefresh := autoInput,
                                         refreshInterval := EffectiveInterval(intervalInput))
      ensures completed ==> store == Some(Record(settings.(apiKey := Btoa(keyInput).value)))
      ensures completed ==> Rearmed(old(refreshTimer), old(nextHandle))
      ensures !completed ==> store == old(store) && refreshTimer == old(refreshTimer)
                             && armed == old(armed) && nextHandle == old(nextHandle)
    {
      settings := settings.(apiKey := keyInput, autoRefresh := autoInput,
                            refreshInterval := EffectiveInterval(intervalInput));
      var encoded := Btoa(settings.apiKey);
      if encoded.None? {
        return false;
      }
      settings := settings.(apiKey := encoded.value);
      store := Some(Record(settings));
      RoundTrip(keyInput);
      var decoded := Atob(settings.apiKey);
      settings := settings.(apiKey := decoded.value);
      StartAutoRefresh();
      completed := true;
    }

    /** `updateBalanceDisplay`: each of the four elements that is present
        shows its field of `lastBalance`, or `'N/A'`. */
    method UpdateBalanceDisplay()
      modifies this`page
      ensures page == Render(old(page), settings.lastBalance)
    {
      var i := 0;
      while i < |Slots|
        invariant 0 <= i <= |Slots|
        invariant page == RenderSlots(old(page), settings.lastBalance, i)
      {
        var (key, selector) := Slots[i];
        if selector in page {
          page := page[selector := Cell(settings.lastBalance, key)];
        }
        i := i + 1;
      }
    }

    /** `checkBalance`, with the outcome of `fetch` given as `reply`. It
        returns the balance (or `None` for `null`) and the `Authorization`
        header value handed to `fetch`, if any. A balance is kept in
        memory and shown, never persisted; on any failure the state is
        left as it was. */
    method CheckBalance(reply: Reply) returns (result: Option<Balance>, request: Option<string>)
      modifies this`settings, this`page
      ensures request == BearerHeader(old(settings.apiKey))
      ensures request.None? ==> result.None?
      ensures request.Some? ==> result == Outcome(reply)
      ensures result.Some? ==> settings == old(settings).(lastBalance := result)
                               && page == Render(old(page), result)
      ensures result.None? ==> settings == old(settings) && page == old(page)
    {
      request := BearerHeader(settings.apiKey);
      if request.None? {
        return None, request;
      }
      result := Outcome(reply);
      if result.Some? {
        settings := settings.(lastBalance := result);
        UpdateBalanceDisplay();
      }
    }
  }

  /** With the widget in a valid state, the host never has more than one
      of its timers armed. */
  lemma AtMostOneTimer(w: Widget)
    requires w.Valid()
    ensures |w.armed| <= 1
  {
    if w.refreshTimer.Some? {
      var t := w.refreshTimer.value;
      assert w.armed <= {t};
      if w.armed != {} {
        assert w.armed == {t};
      }
    }
  }

  /** Restarting twice in a row leaves the same single-timer state as
      restarting once: only the second timer is armed, with the configured
      period, and neither earlier timer survives. */
  method RestartTwice(w: Widget)
    requires w.Valid()
    modifies w`armed, w`refreshTimer, w`nextHandle
    ensures w.Valid()
    ensures old(w.refreshTimer).Some? ==> old(w.refreshTimer).value !in w.armed
    ensures w.settings.autoRefresh ==>
      w.armed == {Interval(old(w.nextHandle) + 1, w.settings.refreshInterval * 1000)}
    ensures !w.settings.autoRefresh ==> w.armed == {}
  {
    w.StartAutoRefresh();
    w.StartAutoRefresh();
  }
}
