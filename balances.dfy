/** The balance the widget fetches, how a reply from the billing endpoint
    becomes one, and how its four fields are shown in the panel. */
module Balances {
  import opened Wrappers

  /** The JavaScript values a parsed JSON reply can hold in a field;
      objects and arrays are all `Composite`, because the widget never
      looks inside them. */
  datatype JsValue = Undefined | Null | Bool(b: bool) | Num(n: real) | Str(s: string) | Composite

  /** ToBoolean: `undefined`, `null`, `false`, `0` and `""` are falsy.
      JSON has no NaN, so no other number is falsy. */
  predicate Truthy(v: JsValue) {
    match v
    case Undefined => false
    case Null => false
    case Bool(b) => b
    case Num(n) => n != 0.0
    case Str(s) => s != ""
    case Composite => true
  }

  /** JavaScript's `a || b`: `a` when it is truthy, otherwise `b`. */
  function Or(a: JsValue, b: JsValue): JsValue {
    if Truthy(a) then a else b
  }

  /** `settings.lastBalance`: the four fields copied from a reply. */
  datatype Balance = Balance(total: JsValue, used: JsValue, remaining: JsValue, expiry: JsValue)

  /** `lastBalance?.[key]`: `undefined` when there is no balance or the key
      is not one of its four fields. */
  function Field(b: Option<Balance>, key: string): JsValue {
    match b
    case None => Undefined
    case Some(bal) =>
      if key == "total" then bal.total
      else if key == "used" then bal.used
      else if key == "remaining" then bal.remaining
      else if key == "expiry" then bal.expiry
      else Undefined
  }

  const NotAvailable: JsValue := Str("N/A")

  /** What one display element shows: the field, or `'N/A'` when the field
      is falsy. */
  function Cell(b: Option<Balance>, key: string): (r: JsValue)
    ensures Truthy(r)
    ensures r == Field(b, key) || r == NotAvailable
  {
    Or(Field(b, key), NotAvailable)
  }

  /** A truthy field is shown as it is. */
  lemma CellShowsTruthyField(b: Option<Balance>, key: string)
    requires Truthy(Field(b, key))
    ensures Cell(b, key) == Field(b, key)
  {
  }

  /** A missing balance and a falsy field, zero included, show `'N/A'`. */
  lemma CellFallsBack(b: Option<Balance>, key: string)
    requires b.None? || !Truthy(Field(b, key))
    ensures Cell(b, key) == NotAvailable
  {
  }

  /** A balance of exactly zero credits is indistinguishable on screen from
      a missing one. */
  lemma ZeroShowsNotAvailable(bal: Balance)
    requires bal.remaining == Num(0.0)
    ensures Cell(Some(bal), "remaining") == Cell(None, "remaining") == NotAvailable
  {
  }

  /** The display elements, in the order the widget visits them: each
      balance key with the selector of the element that shows it. */
  const Slots: seq<(string, string)> := [
    ("remaining", "#remaining-credits"),
    ("used", "#used-credits"),
    ("total", "#total-credits"),
    ("expiry", "#expiry-date")
  ]

  predicate IsSlotSelector(sel: string) {
    exists j :: 0 <= j < |Slots| && Slots[j].1 == sel
  }

  /** The page after the first `n` slots have been visited. The page maps
      the selector of every element present to the value it shows; a
      selector with no element is skipped. */
  function RenderSlots(page: map<string, JsValue>, b: Option<Balance>, n: nat): (r: map<string, JsValue>)
    requires n <= |Slots|
    ensures r.Keys == page.Keys
  {
    if n == 0 then page
    else
      var prev := RenderSlots(page, b, n - 1);
      var (key, sel) := Slots[n - 1];
      if sel in prev then prev[sel := Cell(b, key)] else prev
  }

  /** The page after all four slots have been visited: the same elements
      are present, and each of the four that is present shows its cell. */
  function Render(page: map<string, JsValue>, b: Option<Balance>): (r: map<string, JsValue>)
    ensures r.Keys == page.Keys
    ensures forall j :: 0 <= j < |Slots| && Slots[j].1 in page ==> r[Slots[j].1] == Cell(b, Slots[j].0)
  {
    RenderSlotsEffect(page, b, |Slots|);
    RenderSlots(page, b, |Slots|)
  }

  /** After `n` slots: the same elements are present, each of the first `n`
      slot elements shows its cell, and every other element is as it was. */
  lemma {:induction false} RenderSlotsEffect(page: map<string, JsValue>, b: Option<Balance>, n: nat)
    requires n <= |Slots|
    ensures RenderSlots(page, b, n).Keys == page.Keys
    ensures forall j :: 0 <= j < n && Slots[j].1 in page ==> RenderSlots(page, b, n)[Slots[j].1] == Cell(b, Slots[j].0)
    ensures forall sel :: sel in page && (forall j :: 0 <= j < n ==> Slots[j].1 != sel) ==> RenderSlots(page, b, n)[sel] == page[sel]
  {
    if n > 0 {
      RenderSlotsEffect(page, b, n - 1);
    }
  }

  /** Elements other than the four are untouched. */
  lemma RenderKeepsRest(page: map<string, JsValue>, b: Option<Balance>)
    ensures forall sel :: sel in page && !IsSlotSelector(sel) ==> Render(page, b)[sel] == page[sel]
  {
    RenderSlotsEffect(page, b, |Slots|);
  }

  /** Showing the same balance twice changes nothing the second time. */
  lemma RenderIdempotent(page: map<string, JsValue>, b: Option<Balance>)
    ensures Render(Render(page, b), b) == Render(page, b)
  {
    var once := Render(page, b);
    RenderSlotsEffect(page, b, |Slots|);
    RenderSlotsEffect(once, b, |Slots|);
    forall sel | sel in once
      ensures Render(once, b)[sel] == once[sel]
    {
      if j :| 0 <= j < |Slots| && Slots[j].1 == sel {
      }
    }
  }

  /** The body of a reply: not JSON at all, the JSON `null` (reading a
      property of it throws), or anything else, whose named properties are
      given here; a property it lacks reads as `undefined`. */
  datatype Body = Malformed | NullBody | Object(fields: map<string, JsValue>)

  /** What `fetch` produced: a network error, or a response with its status
      code and body. */
  datatype Reply = NetworkError | Response(status: int, body: Body)

  /** `response.ok`: a status in the range 200 to 299. */
  predicate IsOk(status: int) {
    200 <= status <= 299
  }

  function Get(fields: map<string, JsValue>, name: string): JsValue {
    if name in fields then fields[name] else Undefined
  }

  /** The provider's field names mapped onto the balance: under each of
      the four provider names the balance carries what the reply held
      there, `undefined` when the reply lacks it. */
  function BalanceOf(fields: map<string, JsValue>): (r: Balance)
    ensures forall name :: name in ProviderFields(r) ==> ProviderFields(r)[name] == Get(fields, name)
  {
    Balance(Get(fields, "total_credits"), Get(fields, "used_credits"),
            Get(fields, "remaining_credits"), Get(fields, "expiry_date"))
  }

  /** The provider reply that carries exactly the given balance. */
  function ProviderFields(bal: Balance): map<string, JsValue> {
    map["total_credits" := bal.total, "used_credits" := bal.used,
        "remaining_credits" := bal.remaining, "expiry_date" := bal.expiry]
  }

  /** Reading back the provider fields of a balance gives that balance. */
  lemma BalanceOfProviderFields(bal: Balance)
    ensures BalanceOf(ProviderFields(bal)) == bal
  {
  }

  /** Only the four provider fields matter; anything else in the reply is
      ignored. */
  lemma BalanceOfIgnoresOthers(f: map<string, JsValue>, g: map<string, JsValue>)
    requires forall name :: name in {"total_credits", "used_credits", "remaining_credits", "expiry_date"} ==> Get(f, name) == Get(g, name)
    ensures BalanceOf(f) == BalanceOf(g)
  {
    assert Get(f, "total_credits") == Get(g, "total_credits");
    assert Get(f, "used_credits") == Get(g, "used_credits");
    assert Get(f, "remaining_credits") == Get(g, "remaining_credits");
    assert Get(f, "expiry_date") == Get(g, "expiry_date");
  }

  /** The balance a reply yields, or `None` when handling it throws: a
      network error, a status outside 200-299, a body that is not JSON, or
      the JSON `null`. */
  function Outcome(reply: Reply): (r: Option<Balance>)
    ensures r.Some? <==> reply.Response? && IsOk(reply.status) && reply.body.Object?
    ensures r.Some? ==> r.value == BalanceOf(reply.body.fields)
  {
    match reply
    case NetworkError => None
    case Response(status, body) =>
      if !IsOk(status) then None
      else match body
        case Object(fields) => Some(BalanceOf(fields))
        case _ => None
  }
}
