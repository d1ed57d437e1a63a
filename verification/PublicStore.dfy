/**
 Checkout in the public store (legacy/web/public-store.tsx): quoting a cart,
 recording the checkout before it is sent, and recovering it after a crash, with
 a server that keeps one order per key and a network that loses and delays.
 */
module PublicStore {
  import opened Wrappers

  type Key = nat

  datatype CartLine = CartLine(product: string, variant: string, quantity: nat)

  datatype RequestLine = RequestLine(product: string, variant: string, quantity: nat, shipping: bool)

  /** What a total is computed for. */
  datatype Request = Request(person: string, lines: seq<RequestLine>)

  /** A quote; its digest is taken over the request and the server's terms. */
  datatype Quote = Quote(request: Request, terms: int)

  datatype Body = Body(request: Request, digest: Quote, address: string, key: Key)

  /** The record kept in session storage while an order is not confirmed. */
  datatype Pending = Pending(body: Body, key: Key)

  /** The review form; `id` tells one mounting of it from the next. */
  datatype Form = Form(
    id: nat, person: string, shipping: set<string>, address: string,
    key: Key, quote: Option<Quote>, busy: bool)

  datatype Recovery = Recovery(pending: Pending, busy: bool, rejected: bool)

  /** The page in memory, and `stored`, the pending record in session storage. */
  datatype Browser = Browser(
    cart: seq<CartLine>, recovery: Option<Recovery>, form: Option<Form>,
    checkoutBusy: bool, receipt: Option<Key>, stored: Option<Pending>)

  function RequestLines(cart: seq<CartLine>, shipping: set<string>): seq<RequestLine> {
    seq(|cart|, i requires 0 <= i < |cart| =>
      RequestLine(cart[i].product, cart[i].variant, cart[i].quantity, cart[i].product in shipping))
  }

  function RequestOf(form: Form, cart: seq<CartLine>): Request {
    Request(form.person, RequestLines(cart, form.shipping))
  }

  // ---- The handlers, as functions of the browser

  /** A page just loaded; a stored record is taken up for recovery. */
  function Loaded(cart: seq<CartLine>, stored: Option<Pending>): Browser {
    Browser(cart, if stored.Some? then Some(Recovery(stored.value, false, false)) else None,
            None, false, None, stored)
  }

  /** The store is shown and its fieldset enabled. */
  predicate StoreEnabled(b: Browser) {
    b.recovery.None? && !b.checkoutBusy
  }

  predicate FormEnabled(b: Browser) {
    StoreEnabled(b) && b.form.Some? && !b.form.value.busy
  }

  function FormOpened(b: Browser, key: Key): Browser {
    b.(form := Some(Form(key, "", {}, "", key, None, false)))
  }

  function PersonChosen(b: Browser, person: string, key: Key): Browser
    requires b.form.Some?
  {
    b.(form := Some(b.form.value.(person := person, quote := None, key := key)))
  }

  function ShippingToggled(b: Browser, product: string, on: bool, key: Key): Browser
    requires b.form.Some?
  {
    var shipping := if on then b.form.value.shipping + {product} else b.form.value.shipping - {product};
    b.(form := Some(b.form.value.(shipping := shipping, quote := None, key := key)))
  }

  function AddressEdited(b: Browser, address: string, key: Key): Browser
    requires b.form.Some?
  {
    b.(form := Some(b.form.value.(address := address, key := key)))
  }

  function ReviewedAgain(b: Browser, key: Key): Browser
    requires b.form.Some?
  {
    b.(form := Some(b.form.value.(quote := None, key := key)))
  }

  /** The review is keyed by the cart, so another cart mounts another review. */
  function CartChanged(b: Browser, cart: seq<CartLine>): Browser {
    b.(cart := cart, form := None)
  }

  predicate CanQuote(b: Browser) {
    FormEnabled(b) && b.form.value.quote.None? && b.form.value.person != ""
  }

  function QuoteAsked(b: Browser): Browser
    requires b.form.Some?
  {
    b.(form := Some(b.form.value.(busy := true)), checkoutBusy := true)
  }

  /** The reply reaches the form that asked, if it is still there. */
  function QuoteArrived(b: Browser, id: nat, quote: Option<Quote>): Browser {
    var settled := b.(checkoutBusy := false);
    if b.form.Some? && b.form.value.id == id then
      settled.(form := Some(b.form.value.(busy := false, quote := if quote.Some? then quote else b.form.value.quote)))
    else settled
  }

  predicate CanOrder(b: Browser) {
    FormEnabled(b) && b.form.value.quote.Some? && b.form.value.person != ""
  }

  function OrderOf(b: Browser): Pending
    requires b.form.Some? && b.form.value.quote.Some?
  {
    var f := b.form.value;
    Pending(Body(RequestOf(f, b.cart), f.quote.value, f.address, f.key), f.key)
  }

  /** Recording the order; when storage refuses it, nothing is sent and the form stays. */
  function Recorded(b: Browser, storageOk: bool): Browser
    requires b.form.Some? && b.form.value.quote.Some?
  {
    if !storageOk then b
    else
      var pending := OrderOf(b);
      b.(stored := Some(pending), recovery := Some(Recovery(pending, false, false)), form := None, checkoutBusy := true)
  }

  /** A receipt: the stored record goes, unless storage refuses. */
  function Placed(b: Browser, key: Key, storageOk: bool): Browser {
    b.(stored := if storageOk then None else b.stored, receipt := Some(key), cart := [], recovery := None, form := None)
  }

  predicate CanRecover(b: Browser) {
    b.recovery.Some? && !b.recovery.value.busy
  }

  function RecoverStarted(b: Browser): Browser
    requires b.recovery.Some?
  {
    b.(recovery := Some(b.recovery.value.(busy := true, rejected := false)))
  }

  /** The end of a recovery attempt without a receipt. */
  function RecoverEnded(b: Browser, pending: Pending, rejected: bool): Browser {
    if b.recovery.Some? && b.recovery.value.pending == pending
    then b.(recovery := Some(b.recovery.value.(busy := false, rejected := rejected)))
    else b
  }

  predicate CanDiscard(b: Browser) {
    b.recovery.Some? && b.recovery.value.rejected
  }

  /** When storage refuses, the handler fails before it leaves recovery. */
  function Discarded(b: Browser, storageOk: bool): Browser {
    if storageOk then b.(stored := None, recovery := None) else b
  }

  // ---- The page itself

  class StorePage {
    var cart: seq<CartLine>
    var recovery: Option<Recovery>
    var form: Option<Form>
    var checkoutBusy: bool
    var receipt: Option<Key>
    var stored: Option<Pending>

    function View(): Browser
      reads this
    {
      Browser(cart, recovery, form, checkoutBusy, receipt, stored)
    }

    constructor (cart: seq<CartLine>, stored: Option<Pending>)
      ensures View() == Loaded(cart, stored)
    {
      this.cart, this.stored := cart, stored;
      recovery := if stored.Some? then Some(Recovery(stored.value, false, false)) else None;
      form, checkoutBusy, receipt := None, false, None;
    }

    /** The review opens with nobody chosen and nothing to ship; `key` is its id and its first request key. */
    method OpenReview(key: Key)
      requires StoreEnabled(View()) && form.None? && cart != []
      modifies this
      ensures View() == FormOpened(old(View()), key)
      ensures form.Some? && form.value.person == "" && form.value.shipping == {} && form.value.quote.None? && !form.value.busy
    {
      form := Some(Form(key, "", {}, "", key, None, false));
    }

    method ChoosePerson(person: string, key: Key)
      requires FormEnabled(View())
      modifies this
      ensures View() == PersonChosen(old(View()), person, key)
      ensures form.Some? && form.value.person == person && form.value.quote.None? && form.value.key == key
    {
      form := Some(form.value.(person := person));
      form := Some(form.value.(quote := None));
      form := Some(form.value.(key := key));
    }

    method ToggleShipping(product: string, on: bool, key: Key)
      requires FormEnabled(View())
      modifies this
      ensures View() == ShippingToggled(old(View()), product, on, key)
      ensures form.Some? && form.value.quote.None? && form.value.key == key && (product in form.value.shipping <==> on)
      ensures forall p :: p != product ==> (p in form.value.shipping <==> p in old(form).value.shipping)
    {
      var shipping := form.value.shipping;
      shipping := if on then shipping + {product} else shipping - {product};
      form := Some(form.value.(shipping := shipping, quote := None, key := key));
    }

    method EditAddress(address: string, key: Key)
      requires FormEnabled(View())
      modifies this
      ensures View() == AddressEdited(old(View()), address, key)
      ensures form.Some? && form.value.address == address && form.value.key == key && form.value.quote == old(form).value.quote
    {
      form := Some(form.value.(address := address));
      form := Some(form.value.(key := key));
    }

    method ReviewAgain(key: Key)
      requires FormEnabled(View())
      modifies this
      ensures View() == ReviewedAgain(old(View()), key)
      ensures form.Some? && form.value.quote.None? && form.value.key == key
    {
      form := Some(form.value.(quote := None));
      form := Some(form.value.(key := key));
    }

    method ChangeCart(cart': seq<CartLine>)
      requires StoreEnabled(View())
      modifies this
      ensures View() == CartChanged(old(View()), cart')
      ensures cart == cart' && form.None?
    {
      cart := cart';
      form := None;
    }

    /** The end of a quote request; a form mounted since then is left alone. */
    method OnQuote(id: nat, quote: Option<Quote>)
      modifies this
      ensures View() == QuoteArrived(old(View()), id, quote)
      ensures !checkoutBusy && (form.Some? && form.value.id == id ==> !form.value.busy && (quote.Some? ==> form.value.quote == quote))
      ensures old(form).Some? && old(form).value.id != id ==> form == old(form)
    {
      if form.Some? && form.value.id == id {
        if quote.Some? { form := Some(form.value.(quote := quote)); }
        form := Some(form.value.(busy := false));
      }
      checkoutBusy := false;
    }

    /** The submit handler up to its request: what it asks for, or the order it records and sends. */
    method Submit(storageOk: bool) returns (asked: Option<Request>, sent: Option<Pending>)
      modifies this
      ensures CanQuote(old(View())) ==>
                View() == QuoteAsked(old(View())) && sent == None
                && asked == Some(RequestOf(old(form).value, old(cart)))
      ensures CanOrder(old(View())) ==>
                View() == Recorded(old(View()), storageOk) && asked == None
                && sent == (if storageOk then Some(OrderOf(old(View()))) else None)
      ensures sent.Some? ==> stored == sent
      ensures !CanQuote(old(View())) && !CanOrder(old(View())) ==> View() == old(View()) && asked == None && sent == None
    {
      asked, sent := None, None;
      if recovery.Some? || checkoutBusy || form.None? || form.value.busy || form.value.person == "" {
        return;
      }
      if form.value.quote.Some? {
        if storageOk {
          sent := Some(OrderOf(View()));
          stored := sent;
          recovery := Some(Recovery(sent.value, false, false));
          form := None;
          checkoutBusy := true;
        }
      } else {
        form := Some(form.value.(busy := true));
        checkoutBusy := true;
        asked := Some(RequestOf(form.value, cart));
      }
    }

    method OnPlaced(key: Key, storageOk: bool)
      modifies this
      ensures View() == Placed(old(View()), key, storageOk)
      ensures receipt == Some(key) && cart == [] && recovery.None? && form.None?
      ensures stored == if storageOk then None else old(stored)
    {
      if storageOk { stored := None; }
      receipt := Some(key);
      cart := [];
      recovery, form := None, None;
    }

    method Continue() returns (pending: Pending)
      requires CanRecover(View())
      modifies this
      ensures View() == RecoverStarted(old(View())) && pending == old(recovery).value.pending
      ensures recovery == Some(Recovery(pending, true, false)) && stored == old(stored)
    {
      pending := recovery.value.pending;
      recovery := Some(recovery.value.(busy := true, rejected := false));
    }

    method OnRecoverEnd(pending: Pending, rejected: bool)
      modifies this
      ensures View() == RecoverEnded(old(View()), pending, rejected)
      ensures recovery == if old(recovery).Some? && old(recovery).value.pending == pending then Some(Recovery(pending, false, rejected)) else old(recovery)
    {
      if recovery.Some? && recovery.value.pending == pending {
        recovery := Some(recovery.value.(rejected := rejected));
        recovery := Some(recovery.value.(busy := false));
      }
    }

    method Discard(storageOk: bool)
      requires CanDiscard(View())
      modifies this
      ensures View() == Discarded(old(View()), storageOk)
      ensures if storageOk then stored.None? && recovery.None? && cart == old(cart) else View() == old(View())
    {
      if !storageOk { return; }
      stored := None;
      recovery := None;
    }
  }

  // ---- Server, network and handlers waiting for replies

  /** `Rejected` is one of the statuses 400, 403, 404, 409 and 422. */
  datatype Reply = Receipt | Rejected | Failed

  datatype Verdict = Commit | Refuse | Break

  /**
   `recoverWhileBusy`: "Continue previous checkout" works while the first
   submission still waits, as in the source.  `remembers`: a server that
   rejected a key never accepts it later.
   */
  datatype Policy = Policy(recoverWhileBusy: bool, remembers: bool)

  /** Handlers suspended at a request: they outlive the component that started them, but not the page. */
  datatype Handler =
    | Quoting(id: nat, request: Request)
    | Sending(pending: Pending)
    | Awaiting(pending: Pending)
    | AskingStatus(pending: Pending)
    | Resending(pending: Pending)
  {
    predicate OfForm() { Quoting? || Sending? || Awaiting? }
  }

  /** `recorded`, `acknowledged` and `used` are histories; `posted` requests may arrive at any time, any number of times. */
  datatype System = System(
    browser: Browser, waiting: set<Handler>,
    posted: set<Body>, orders: map<Key, Body>, refused: set<Key>, replies: set<(Body, Reply)>,
    recorded: set<Pending>, acknowledged: set<Key>, used: set<Key>)

  datatype Step =
    | OpenForm(key: Key)
    | ChoosePerson(person: string, key: Key)
    | ToggleShipping(product: string, on: bool, key: Key)
    | EditAddress(address: string, key: Key)
    | ReviewAgain(key: Key)
    | ChangeCart(cart: seq<CartLine>)
    | Unmount
    | AskQuote
    | QuoteReply(quoting: Handler, terms: Option<int>)
    | Record(storageOk: bool)
    | Post(sending: Handler)
    | OrderReply(awaiting: Handler, reply: Reply, storageOk: bool)
    | Continue
    | StatusReply(asking: Handler, found: bool, storageOk: bool)
    | StatusFailed(failed: Handler)
    | ResendReply(resending: Handler, reply: Reply, storageOk: bool)
    | Discard(storageOk: bool)
    | Reload(restored: seq<CartLine>)
    | Serve(body: Body, verdict: Verdict)

  function Start(cart: seq<CartLine>): System {
    System(Loaded(cart, None), {}, {}, map[], {}, {}, {}, {}, {})
  }

  function Answer(policy: Policy, s: System, body: Body, verdict: Verdict): Reply {
    if body.key in s.orders then (if s.orders[body.key] == body then Receipt else Rejected)
    else if policy.remembers && body.key in s.refused then Rejected
    else
      match verdict
      case Commit => Receipt
      case Refuse => Rejected
      case Break => Failed
  }

  function Served(policy: Policy, s: System, body: Body, verdict: Verdict): System {
    var reply := Answer(policy, s, body, verdict);
    s.(orders := if reply == Receipt then s.orders[body.key := body] else s.orders,
       refused := if reply == Rejected && body.key !in s.orders then s.refused + {body.key} else s.refused,
       replies := s.replies + {(body, reply)})
  }

  predicate Enabled(policy: Policy, s: System, step: Step) {
    var b := s.browser;
    match step
    case OpenForm(key) => StoreEnabled(b) && b.form.None? && b.cart != [] && key !in s.used
    case ChoosePerson(_, key) => FormEnabled(b) && key !in s.used
    case ToggleShipping(_, _, key) => FormEnabled(b) && key !in s.used
    case EditAddress(_, key) => FormEnabled(b) && key !in s.used
    case ReviewAgain(key) => FormEnabled(b) && key !in s.used
    case ChangeCart(cart) => StoreEnabled(b) && cart != b.cart
    case Unmount => true
    case AskQuote => CanQuote(b)
    case QuoteReply(h, _) => h in s.waiting && h.Quoting?
    case Record(_) => CanOrder(b)
    case Post(h) => h in s.waiting && h.Sending?
    case OrderReply(h, reply, _) =>
      h in s.waiting && h.Awaiting? && (reply == Failed || (h.pending.body, reply) in s.replies)
    case Continue => CanRecover(b) && (policy.recoverWhileBusy || !b.checkoutBusy)
    case StatusReply(h, found, _) => h in s.waiting && h.AskingStatus? && (found ==> h.pending.key in s.orders)
    case StatusFailed(h) => h in s.waiting && h.AskingStatus?
    case ResendReply(h, reply, _) =>
      h in s.waiting && h.Resending? && (reply == Failed || (h.pending.body, reply) in s.replies)
    case Discard(_) => CanDiscard(b)
    case Reload(_) => true
    case Serve(body, _) => body in s.posted
  }

  function Acknowledge(s: System, key: Key, storageOk: bool): System {
    s.(browser := Placed(s.browser, key, storageOk), acknowledged := s.acknowledged + {key})
  }

  function Apply(policy: Policy, s: System, step: Step): System
    requires Enabled(policy, s, step)
  {
    var b := s.browser;
    match step
    case OpenForm(key) => s.(browser := FormOpened(b, key), used := s.used + {key})
    case ChoosePerson(person, key) => s.(browser := PersonChosen(b, person, key), used := s.used + {key})
    case ToggleShipping(product, on, key) => s.(browser := ShippingToggled(b, product, on, key), used := s.used + {key})
    case EditAddress(address, key) => s.(browser := AddressEdited(b, address, key), used := s.used + {key})
    case ReviewAgain(key) => s.(browser := ReviewedAgain(b, key), used := s.used + {key})
    case ChangeCart(cart) => s.(browser := CartChanged(b, cart))
    case Unmount => s.(browser := b.(form := None))
    case AskQuote =>
      s.(browser := QuoteAsked(b), waiting := s.waiting + {Quoting(b.form.value.id, RequestOf(b.form.value, b.cart))})
    case QuoteReply(h, terms) =>
      s.(browser := QuoteArrived(b, h.id, if terms.Some? then Some(Quote(h.request, terms.value)) else None),
         waiting := s.waiting - {h})
    case Record(storageOk) =>
      if storageOk then
        s.(browser := Recorded(b, true), waiting := s.waiting + {Sending(OrderOf(b))}, recorded := s.recorded + {OrderOf(b)})
      else s
    case Post(h) =>
      s.(waiting := s.waiting - {h} + {Awaiting(h.pending)}, posted := s.posted + {h.pending.body})
    case OrderReply(h, reply, storageOk) =>
      var settled := s.(waiting := s.waiting - {h}, browser := b.(checkoutBusy := false));
      if reply == Receipt then Acknowledge(settled, h.pending.key, storageOk) else settled
    case Continue =>
      s.(browser := RecoverStarted(b), waiting := s.waiting + {AskingStatus(b.recovery.value.pending)})
    case StatusReply(h, found, storageOk) =>
      if found then Acknowledge(s.(waiting := s.waiting - {h}), h.pending.key, storageOk)
      else s.(waiting := s.waiting - {h} + {Resending(h.pending)}, posted := s.posted + {h.pending.body})
    case StatusFailed(h) => s.(waiting := s.waiting - {h}, browser := RecoverEnded(b, h.pending, false))
    case ResendReply(h, reply, storageOk) =>
      var settled := s.(waiting := s.waiting - {h});
      if reply == Receipt then Acknowledge(settled, h.pending.key, storageOk)
      else settled.(browser := RecoverEnded(b, h.pending, reply == Rejected))
    case Discard(storageOk) => s.(browser := Discarded(b, storageOk))
    case Reload(restored) => s.(browser := Loaded(restored, b.stored), waiting := {})
    case Serve(body, verdict) => Served(policy, s, body, verdict)
  }

  /** A run over any number of loads of the page in one tab. */
  ghost predicate Run(policy: Policy, states: seq<System>, steps: seq<Step>) {
    && |states| == |steps| + 1
    && (exists cart :: states[0] == Start(cart))
    && forall i :: 0 <= i < |steps| ==> Enabled(policy, states[i], steps[i]) && states[i + 1] == Apply(policy, states[i], steps[i])
  }

  // ---- What every step keeps, whatever the policy

  ghost predicate FormInv(s: System) {
    var b := s.browser;
    && (b.form.Some? ==>
          var f := b.form.value;
          && f.id in s.used && f.key in s.used
          && (forall p :: p in s.recorded ==> p.key != f.key)
          && (f.busy ==> exists h :: h in s.waiting && h.Quoting? && h.id == f.id)
          && (f.quote.Some? ==> f.quote.value.request == RequestOf(f, b.cart)))
    && (forall h :: h in s.waiting && h.Quoting? ==>
          && h.id in s.used
          && (b.form.Some? && b.form.value.id == h.id ==> b.form.value.busy && h.request == RequestOf(b.form.value, b.cart)))
  }

  ghost predicate BusyInv(s: System) {
    && (s.browser.checkoutBusy <==> exists h :: h in s.waiting && h.OfForm())
    && (forall g, h :: g in s.waiting && h in s.waiting && g.OfForm() && h.OfForm() ==> g == h)
  }

  ghost predicate RecordInv(s: System) {
    && (forall p :: p in s.recorded ==> p.key == p.body.key && p.key in s.used && p.body.digest.request == p.body.request)
    && (forall p, q :: p in s.recorded && q in s.recorded && p.key == q.key ==> p == q)
    && (forall h :: h in s.waiting && !h.Quoting? ==> h.pending in s.recorded)
    && (s.browser.recovery.Some? ==> s.browser.stored == Some(s.browser.recovery.value.pending))
    && (s.browser.stored.Some? ==> s.browser.stored.value in s.recorded)
    && (forall body :: body in s.posted ==> Pending(body, body.key) in s.recorded)
  }

  ghost predicate ServerInv(policy: Policy, s: System) {
    && (forall k :: k in s.orders ==> s.orders[k] in s.posted && s.orders[k].key == k)
    && (forall body :: (body, Receipt) in s.replies ==> body.key in s.orders)
    && (forall body :: (body, Rejected) in s.replies ==> body.key in s.refused)
    && s.acknowledged <= s.orders.Keys
    && (policy.remembers ==> s.refused !! s.orders.Keys)
    && (s.browser.recovery.Some? && s.browser.recovery.value.rejected ==> s.browser.recovery.value.pending.key in s.refused)
  }

  ghost predicate Inv(policy: Policy, s: System) {
    FormInv(s) && BusyInv(s) && RecordInv(s) && ServerInv(policy, s)
  }

  lemma FormStepKeeps(policy: Policy, s: System, step: Step)
    requires Inv(policy, s) && Enabled(policy, s, step)
    requires step.OpenForm? || step.ChoosePerson? || step.ToggleShipping? || step.EditAddress? || step.ReviewAgain? || step.ChangeCart? || step.Unmount?
    ensures Inv(policy, Apply(policy, s, step))
  {
  }

  lemma AskQuoteKeeps(policy: Policy, s: System, step: Step)
    requires Inv(policy, s) && Enabled(policy, s, step) && (step.AskQuote?)
    ensures Inv(policy, Apply(policy, s, step))
  {
  }

  lemma QuoteReplyKeeps(policy: Policy, s: System, step: Step)
    requires Inv(policy, s) && Enabled(policy, s, step) && (step.QuoteReply?)
    ensures Inv(policy, Apply(policy, s, step))
  {
  }

  lemma RecordKeeps(policy: Policy, s: System, step: Step)
    requires Inv(policy, s) && Enabled(policy, s, step) && (step.Record?)
    ensures Inv(policy, Apply(policy, s, step))
  {
  }

  lemma PostKeeps(policy: Policy, s: System, step: Step)
    requires Inv(policy, s) && Enabled(policy, s, step) && (step.Post?)
    ensures Inv(policy, Apply(policy, s, step))
  {
  }

  lemma OrderReplyKeeps(policy: Policy, s: System, step: Step)
    requires Inv(policy, s) && Enabled(policy, s, step) && (step.OrderReply?)
    ensures Inv(policy, Apply(policy, s, step))
  {
  }

  lemma StatusReplyKeeps(policy: Policy, s: System, step: Step)
    requires Inv(policy, s) && Enabled(policy, s, step) && (step.StatusReply?)
    ensures Inv(policy, Apply(policy, s, step))
  {
  }

  lemma ResendPlacedKeeps(policy: Policy, s: System, step: Step)
    requires Inv(policy, s) && Enabled(policy, s, step) && step.ResendReply? && step.reply == Receipt
    ensures Inv(policy, Apply(policy, s, step))
  {
  }

  lemma ResendEndedKeeps(policy: Policy, s: System, step: Step)
    requires Inv(policy, s) && Enabled(policy, s, step) && step.ResendReply? && step.reply != Receipt
    ensures Inv(policy, Apply(policy, s, step))
  {
  }

  lemma ContinueKeeps(policy: Policy, s: System, step: Step)
    requires Inv(policy, s) && Enabled(policy, s, step) && step.Continue?
    ensures Inv(policy, Apply(policy, s, step))
  {
  }

  lemma StatusFailedKeeps(policy: Policy, s: System, step: Step)
    requires Inv(policy, s) && Enabled(policy, s, step) && step.StatusFailed?
    ensures Inv(policy, Apply(policy, s, step))
  {
  }

  lemma DiscardKeeps(policy: Policy, s: System, step: Step)
    requires Inv(policy, s) && Enabled(policy, s, step) && step.Discard?
    ensures Inv(policy, Apply(policy, s, step))
  {
  }

  lemma ServeKeeps(policy: Policy, s: System, body: Body, verdict: Verdict)
    requires Inv(policy, s) && body in s.posted
    ensures Inv(policy, Served(policy, s, body, verdict))
  {
  }

  lemma ReloadKeeps(policy: Policy, s: System, step: Step)
    requires Inv(policy, s) && Enabled(policy, s, step) && step.Reload?
    ensures Inv(policy, Apply(policy, s, step))
  {
  }

  lemma StepKeeps(policy: Policy, s: System, step: Step)
    requires Inv(policy, s) && Enabled(policy, s, step)
    ensures Inv(policy, Apply(policy, s, step))
  {
    hide Inv, Enabled, Apply;
    match step
    case AskQuote => AskQuoteKeeps(policy, s, step);
    case QuoteReply(_, _) => QuoteReplyKeeps(policy, s, step);
    case Record(_) => RecordKeeps(policy, s, step);
    case Post(_) => PostKeeps(policy, s, step);
    case OrderReply(_, _, _) => OrderReplyKeeps(policy, s, step);
    case StatusReply(_, _, _) => StatusReplyKeeps(policy, s, step);
    case ResendReply(_, reply, _) =>
      if reply == Receipt { ResendPlacedKeeps(policy, s, step); } else { ResendEndedKeeps(policy, s, step); }
    case Continue => ContinueKeeps(policy, s, step);
    case StatusFailed(_) => StatusFailedKeeps(policy, s, step);
    case Discard(_) => DiscardKeeps(policy, s, step);
    case Reload(_) => ReloadKeeps(policy, s, step);
    case Serve(body, verdict) => ServeStepKeeps(policy, s, body, verdict);
    case _ => FormStepKeeps(policy, s, step);
  }

  lemma ServeStepKeeps(policy: Policy, s: System, body: Body, verdict: Verdict)
    requires Inv(policy, s) && Enabled(policy, s, Serve(body, verdict))
    ensures Inv(policy, Apply(policy, s, Serve(body, verdict)))
  {
    hide Inv, Served;
    ServeKeeps(policy, s, body, verdict);
  }

  lemma {:induction false} RunKeeps(policy: Policy, states: seq<System>, steps: seq<Step>, i: nat)
    requires Run(policy, states, steps) && i < |states|
    ensures Inv(policy, states[i])
  {
    hide Enabled, Apply;
    if i > 0 {
      hide Inv;
      RunKeeps(policy, states, steps, i - 1);
      assert states[i - 1 + 1] == Apply(policy, states[i - 1], steps[i - 1]);
      StepKeeps(policy, states[i - 1], steps[i - 1]);
    }
  }

  // ---- What every step keeps when recovery waits for the first submission

  /** Every handler that could still place an order belongs to the record under recovery. */
  ghost predicate HandlersInv(s: System) {
    var b := s.browser;
    && (forall h :: h in s.waiting ==>
          if h.Quoting? then b.recovery.None?
          else b.recovery.Some? && b.recovery.value.pending == h.pending)
    && (forall h :: h in s.waiting && !h.OfForm() ==> b.recovery.value.busy && !b.checkoutBusy)
    && (forall g, h :: g in s.waiting && h in s.waiting && !g.OfForm() && !h.OfForm() ==> g == h)
    && (b.recovery.Some? && b.recovery.value.rejected ==> !b.recovery.value.busy && !b.checkoutBusy)
  }

  ghost predicate StoredInv(s: System) {
    var b := s.browser;
    && (b.recovery.None? && b.stored.Some? ==> b.stored.value.key in s.acknowledged)
    && (forall body :: body in s.posted ==> Settled(s, body.key))
  }

  /** The order under this key is known to the buyer, refused for good, or can still be recovered. */
  predicate Settled(s: System, key: Key) {
    key in s.acknowledged || key in s.refused || (s.browser.stored.Some? && s.browser.stored.value.key == key)
  }

  ghost predicate Guarded(s: System) {
    HandlersInv(s) && StoredInv(s)
  }

  /** A stored record leaves only after its own receipt or a definitive rejection. */
  predicate RecordKept(s: System, s': System) {
    s.browser.stored.Some? && s'.browser.stored != s.browser.stored
    ==> s.browser.stored.value.key in s'.acknowledged || s.browser.stored.value.key in s.refused
  }

  lemma FormStepGuarded(policy: Policy, s: System, step: Step)
    requires Inv(policy, s) && Guarded(s) && !policy.recoverWhileBusy
    requires Enabled(policy, s, step) && (step.OpenForm? || step.ChoosePerson? || step.ToggleShipping? || step.EditAddress? || step.ReviewAgain? || step.ChangeCart? || step.Unmount?)
    ensures Guarded(Apply(policy, s, step)) && RecordKept(s, Apply(policy, s, step))
  {
    hide FormInv, RecordInv, ServerInv;
  }

  lemma QuoteStepGuarded(policy: Policy, s: System, step: Step)
    requires Inv(policy, s) && Guarded(s) && !policy.recoverWhileBusy
    requires Enabled(policy, s, step) && (step.AskQuote? || step.QuoteReply?)
    ensures Guarded(Apply(policy, s, step)) && RecordKept(s, Apply(policy, s, step))
  {
    hide FormInv, RecordInv, ServerInv;
  }

  lemma RecordGuarded(policy: Policy, s: System, step: Step)
    requires Inv(policy, s) && Guarded(s) && !policy.recoverWhileBusy
    requires Enabled(policy, s, step) && (step.Record?)
    ensures Guarded(Apply(policy, s, step)) && RecordKept(s, Apply(policy, s, step))
  {
    hide FormInv;
  }

  lemma PostGuarded(policy: Policy, s: System, step: Step)
    requires Inv(policy, s) && Guarded(s) && !policy.recoverWhileBusy
    requires Enabled(policy, s, step) && (step.Post?)
    ensures Guarded(Apply(policy, s, step)) && RecordKept(s, Apply(policy, s, step))
  {
    hide FormInv, ServerInv;
  }

  lemma OrderReplyGuarded(policy: Policy, s: System, step: Step)
    requires Inv(policy, s) && Guarded(s) && !policy.recoverWhileBusy
    requires Enabled(policy, s, step) && (step.OrderReply?)
    ensures Guarded(Apply(policy, s, step)) && RecordKept(s, Apply(policy, s, step))
  {
    hide FormInv;
  }

  lemma StatusReplyGuarded(policy: Policy, s: System, step: Step)
    requires Inv(policy, s) && Guarded(s) && !policy.recoverWhileBusy
    requires Enabled(policy, s, step) && (step.StatusReply?)
    ensures Guarded(Apply(policy, s, step)) && RecordKept(s, Apply(policy, s, step))
  {
    hide FormInv;
  }

  lemma ResendReplyGuarded(policy: Policy, s: System, step: Step)
    requires Inv(policy, s) && Guarded(s) && !policy.recoverWhileBusy
    requires Enabled(policy, s, step) && (step.ResendReply?)
    ensures Guarded(Apply(policy, s, step)) && RecordKept(s, Apply(policy, s, step))
  {
    hide FormInv;
  }

  lemma ContinueGuarded(policy: Policy, s: System, step: Step)
    requires Inv(policy, s) && Guarded(s) && !policy.recoverWhileBusy
    requires Enabled(policy, s, step) && step.Continue?
    ensures Guarded(Apply(policy, s, step)) && RecordKept(s, Apply(policy, s, step))
  {
    hide FormInv;
  }

  lemma StatusFailedGuarded(policy: Policy, s: System, step: Step)
    requires Inv(policy, s) && Guarded(s) && !policy.recoverWhileBusy
    requires Enabled(policy, s, step) && step.StatusFailed?
    ensures Guarded(Apply(policy, s, step)) && RecordKept(s, Apply(policy, s, step))
  {
    hide FormInv;
  }

  lemma DiscardGuarded(policy: Policy, s: System, step: Step)
    requires Inv(policy, s) && Guarded(s) && !policy.recoverWhileBusy
    requires Enabled(policy, s, step) && step.Discard?
    ensures Guarded(Apply(policy, s, step)) && RecordKept(s, Apply(policy, s, step))
  {
    hide FormInv;
  }

  lemma ReloadGuarded(policy: Policy, s: System, step: Step)
    requires Inv(policy, s) && Guarded(s) && !policy.recoverWhileBusy
    requires Enabled(policy, s, step) && step.Reload?
    ensures Guarded(Apply(policy, s, step)) && RecordKept(s, Apply(policy, s, step))
  {
    hide FormInv;
  }

  lemma ServeGuarded(policy: Policy, s: System, step: Step)
    requires Inv(policy, s) && Guarded(s) && !policy.recoverWhileBusy
    requires Enabled(policy, s, step) && (step.Serve?)
    ensures Guarded(Apply(policy, s, step)) && RecordKept(s, Apply(policy, s, step))
  {
    hide FormInv, RecordInv, BusyInv;
  }

  lemma StepGuarded(policy: Policy, s: System, step: Step)
    requires Inv(policy, s) && Guarded(s) && !policy.recoverWhileBusy && Enabled(policy, s, step)
    ensures Guarded(Apply(policy, s, step)) && RecordKept(s, Apply(policy, s, step))
  {
    hide Inv, Enabled, Apply, Guarded, RecordKept;
    match step
    case AskQuote => QuoteStepGuarded(policy, s, step);
    case QuoteReply(_, _) => QuoteStepGuarded(policy, s, step);
    case Record(_) => RecordGuarded(policy, s, step);
    case Post(_) => PostGuarded(policy, s, step);
    case OrderReply(_, _, _) => OrderReplyGuarded(policy, s, step);
    case StatusReply(_, _, _) => StatusReplyGuarded(policy, s, step);
    case ResendReply(_, _, _) => ResendReplyGuarded(policy, s, step);
    case Continue => ContinueGuarded(policy, s, step);
    case StatusFailed(_) => StatusFailedGuarded(policy, s, step);
    case Discard(_) => DiscardGuarded(policy, s, step);
    case Reload(_) => ReloadGuarded(policy, s, step);
    case Serve(_, _) => ServeGuarded(policy, s, step);
    case _ => FormStepGuarded(policy, s, step);
  }

  lemma {:induction false} RunGuarded(policy: Policy, states: seq<System>, steps: seq<Step>, i: nat)
    requires Run(policy, states, steps) && i < |states| && !policy.recoverWhileBusy
    ensures Guarded(states[i])
  {
    hide Enabled, Apply;
    if i > 0 {
      hide Guarded;
      RunGuarded(policy, states, steps, i - 1);
      RunKeeps(policy, states, steps, i - 1);
      assert states[i - 1 + 1] == Apply(policy, states[i - 1], steps[i - 1]);
      StepGuarded(policy, states[i - 1], steps[i - 1]);
    }
  }

  // ---- Safety over every run, whatever the policy

  /** Nothing is sent that was not in session storage before it was sent. */
  lemma RecordedBeforePosted(policy: Policy, states: seq<System>, steps: seq<Step>, i: nat, body: Body)
    requires Run(policy, states, steps) && i + 1 < |states| && body in states[i + 1].posted
    ensures exists j :: 0 <= j <= i && states[j].browser.stored == Some(Pending(body, body.key))
  {
    hide Inv, Enabled, Apply;
    RunKeeps(policy, states, steps, i);
    assert states[i + 1] == Apply(policy, states[i], steps[i]);
    PostedWasRecorded(policy, states[i], steps[i], body);
    RecordedWasStored(policy, states, steps, i, Pending(body, body.key));
  }

  lemma PostedWasRecorded(policy: Policy, s: System, step: Step, body: Body)
    requires Inv(policy, s) && Enabled(policy, s, step) && body in Apply(policy, s, step).posted
    ensures Pending(body, body.key) in s.recorded
  {
    hide FormInv, BusyInv, ServerInv;
  }

  lemma {:induction false} RecordedWasStored(policy: Policy, states: seq<System>, steps: seq<Step>, i: nat, p: Pending)
    requires Run(policy, states, steps) && i < |states| && p in states[i].recorded
    ensures exists j :: 0 <= j <= i && states[j].browser.stored == Some(p)
  {
    if i > 0 {
      if p in states[i - 1].recorded {
        RecordedWasStored(policy, states, steps, i - 1, p);
      } else {
        assert states[i - 1 + 1] == Apply(policy, states[i - 1], steps[i - 1]);
        assert states[i].browser.stored == Some(p);
      }
    }
  }

  /** All checkouts sent under one key carry the same body, and a total computed for exactly that body's person, lines and shipping. */
  lemma OneFreshBodyPerKey(policy: Policy, states: seq<System>, steps: seq<Step>, i: nat, body: Body, other: Body)
    requires Run(policy, states, steps) && i < |states|
    requires body in states[i].posted && other in states[i].posted && body.key == other.key
    ensures body == other && body.digest.request == body.request
  {
    RunKeeps(policy, states, steps, i);
    assert Pending(body, body.key) in states[i].recorded && Pending(other, other.key) in states[i].recorded;
  }

  /** At the moment of ordering, the digest sent is the one computed for the person, cart and shipping then on the screen. */
  lemma QuoteFreshWhenOrdered(policy: Policy, states: seq<System>, steps: seq<Step>, i: nat)
    requires Run(policy, states, steps) && i < |steps| && steps[i] == Record(true)
    ensures var b := states[i].browser;
            && b.form.Some? && b.form.value.quote.Some?
            && OrderOf(b) in states[i + 1].recorded
            && OrderOf(b).body.digest.request == RequestOf(b.form.value, b.cart) == OrderOf(b).body.request
            && OrderOf(b).body.address == b.form.value.address && OrderOf(b).key == OrderOf(b).body.key == b.form.value.key
            && states[i + 1].browser.stored == Some(OrderOf(b))
  {
    RunKeeps(policy, states, steps, i);
  }

  /**
   What the buyer can do when.  The cart and the review work only outside recovery
   and while neither a quote nor an order is under way; a quote needs a member, an
   order a quote; recovery takes one attempt at a time, and a checkout can be
   discarded only after a rejection.
   */
  lemma ControlsExact(policy: Policy, s: System, step: Step)
    requires Enabled(policy, s, step)
    ensures var b := s.browser;
            && (step.OpenForm? || step.ChangeCart? || step.ChoosePerson? || step.ToggleShipping? || step.EditAddress?
                || step.ReviewAgain? || step.AskQuote? || step.Record?
                ==> b.recovery.None? && !b.checkoutBusy)
            && (step.OpenForm? ==> b.form.None? && b.cart != [])
            && (step.ChangeCart? ==> step.cart != b.cart)
            && (step.ChoosePerson? || step.ToggleShipping? || step.EditAddress? || step.ReviewAgain? || step.AskQuote? || step.Record?
                ==> b.form.Some? && !b.form.value.busy)
            && (step.AskQuote? || step.Record? ==> b.form.value.person != "" && (b.form.value.quote.Some? <==> step.Record?))
            && (step.Continue? ==> b.recovery.Some? && !b.recovery.value.busy)
            && (step.Discard? ==> b.recovery.Some? && b.recovery.value.rejected)
  {
  }

  /**
   The page can be reloaded, or its review left, at any moment.  A reload forgets
   every request under way; a record in session storage is then up for recovery,
   and recovery can be started at once.
   */
  lemma ReloadRecovers(policy: Policy, s: System, restored: seq<CartLine>)
    ensures Enabled(policy, s, Unmount) && Apply(policy, s, Unmount).browser.form.None?
    ensures Enabled(policy, s, Reload(restored))
    ensures var s' := Apply(policy, s, Reload(restored));
            && s'.waiting == {} && s'.browser.cart == restored && s'.browser.stored == s.browser.stored && !s'.browser.checkoutBusy
            && (s.browser.stored.Some? ==>
                  s'.browser.recovery == Some(Recovery(s.browser.stored.value, false, false)) && Enabled(policy, s', Continue))
            && (s.browser.stored.None? ==> s'.browser.recovery.None?)
            && s'.orders == s.orders && s'.posted == s.posted
  {
  }

  /**
   The order recorded is what the screen shows: for the member chosen, one line for
   each cart line, in order, with its product, variant and quantity, to be shipped
   exactly when its product is ticked, and the address and key of the form.
   */
  lemma OrderIsTheCart(policy: Policy, states: seq<System>, steps: seq<Step>, i: nat, n: nat)
    requires Run(policy, states, steps) && i < |steps| && steps[i] == Record(true)
    ensures var b, stored := states[i].browser, states[i + 1].browser.stored;
            && b.form.Some? && stored.Some?
            && var form, body := b.form.value, stored.value.body;
               && body.request.person == form.person != "" && body.address == form.address && body.key == stored.value.key == form.key
               && |body.request.lines| == |b.cart|
               && (n < |b.cart| ==>
                     var line, asked := b.cart[n], body.request.lines[n];
                     && asked.product == line.product && asked.variant == line.variant && asked.quantity == line.quantity
                     && (asked.shipping <==> line.product in form.shipping))
  {
  }

  /** The review stays mounted, and this product's shipping is left alone. */
  ghost predicate ShippingLeft(states: seq<System>, steps: seq<Step>, i: nat, j: nat, product: string) {
    && i < j < |steps| < |states|
    && (forall k :: i < k <= j ==> states[k].browser.form.Some?)
    && (forall k :: i < k < j ==> !(steps[k].ToggleShipping? && steps[k].product == product))
  }

  lemma {:induction false} ShippingStays(policy: Policy, states: seq<System>, steps: seq<Step>, i: nat, j: nat, product: string)
    requires Run(policy, states, steps) && ShippingLeft(states, steps, i, j, product)
    requires steps[i].ToggleShipping? && steps[i].product == product
    ensures product in states[j].browser.form.value.shipping <==> steps[i].on
    decreases j
  {
    hide Enabled, Apply;
    assert states[j - 1 + 1] == Apply(policy, states[j - 1], steps[j - 1]);
    assert states[j].browser.form.Some?;
    if j == i + 1 {
      ShippingSet(policy, states[i], steps[i]);
    } else {
      assert states[j - 1].browser.form.Some?;
      ShippingStays(policy, states, steps, i, j - 1, product);
      ShippingKept(policy, states[j - 1], steps[j - 1], product);
    }
  }

  lemma ShippingSet(policy: Policy, s: System, step: Step)
    requires Enabled(policy, s, step) && step.ToggleShipping?
    ensures var form := Apply(policy, s, step).browser.form;
            form.Some? && (step.product in form.value.shipping <==> step.on)
  {
  }

  lemma ShippingKept(policy: Policy, s: System, step: Step, product: string)
    requires Enabled(policy, s, step) && !(step.ToggleShipping? && step.product == product)
    requires s.browser.form.Some? && Apply(policy, s, step).browser.form.Some?
    ensures product in Apply(policy, s, step).browser.form.value.shipping <==> product in s.browser.form.value.shipping
  {
  }

  /** From ticking, or unticking, a product's shipping to ordering it: the order asks for shipping as last chosen. */
  lemma ShippingAsChosen(policy: Policy, states: seq<System>, steps: seq<Step>, i: nat, j: nat, product: string, n: nat)
    requires Run(policy, states, steps) && i < j < |steps| && steps[j] == Record(true)
    requires steps[i].ToggleShipping? && steps[i].product == product && ShippingLeft(states, steps, i, j, product)
    ensures var cart, stored := states[j].browser.cart, states[j + 1].browser.stored;
            n < |cart| && cart[n].product == product ==>
              stored.Some? && |stored.value.body.request.lines| == |cart|
              && (stored.value.body.request.lines[n].shipping <==> steps[i].on)
  {
    hide Run;
    ShippingStays(policy, states, steps, i, j, product);
    OrderIsTheCart(policy, states, steps, j, n);
  }

  /** An order stands under its own key with the body that was sent, and a receipt is shown only for an order that exists. */
  lemma OrdersAndReceipts(policy: Policy, states: seq<System>, steps: seq<Step>, i: nat, key: Key)
    requires Run(policy, states, steps) && i < |states|
    ensures key in states[i].orders ==> states[i].orders[key] in states[i].posted && states[i].orders[key].key == key
    ensures key in states[i].acknowledged ==> key in states[i].orders
  {
    RunKeeps(policy, states, steps, i);
  }

  /** Once placed, an order stays as it is: nothing sent later under its key changes it. */
  lemma {:induction false} OrdersStand(policy: Policy, states: seq<System>, steps: seq<Step>, i: nat, j: nat, key: Key)
    requires Run(policy, states, steps) && i <= j < |states| && key in states[i].orders
    ensures key in states[j].orders && states[j].orders[key] == states[i].orders[key]
  {
    if i < j {
      OrdersStand(policy, states, steps, i, j - 1, key);
      assert states[j - 1 + 1] == Apply(policy, states[j - 1], steps[j - 1]);
      OrderStands(policy, states[j - 1], steps[j - 1], key);
    }
  }

  lemma OrderStands(policy: Policy, s: System, step: Step, key: Key)
    requires Enabled(policy, s, step) && key in s.orders
    ensures var s' := Apply(policy, s, step); key in s'.orders && s'.orders[key] == s.orders[key]
  {
  }

  // ---- Which steps lose something

  ghost predicate RecordsKept(states: seq<System>) {
    forall i :: 0 <= i < |states| - 1 ==> RecordKept(states[i], states[i + 1])
  }

  /** Every order the server holds is known to the buyer or can still be recovered. */
  predicate NoneLost(s: System) {
    forall key :: key in s.orders ==>
      key in s.acknowledged || (s.browser.stored.Some? && s.browser.stored.value.key == key)
  }

  ghost predicate NeverLost(states: seq<System>) {
    forall i :: 0 <= i < |states| ==> NoneLost(states[i])
  }

  /** The key whose receipt has the page remove its stored record. */
  function ReceiptRemoving(step: Step): Option<Key> {
    match step
    case OrderReply(h, reply, storageOk) => if h.Awaiting? && reply == Receipt && storageOk then Some(h.pending.key) else None
    case StatusReply(h, found, storageOk) => if h.AskingStatus? && found && storageOk then Some(h.pending.key) else None
    case ResendReply(h, reply, storageOk) => if h.Resending? && reply == Receipt && storageOk then Some(h.pending.key) else None
    case _ => None
  }

  /** The record of this key is removed on the receipt of another key, or replaced by another order. */
  predicate Displaces(step: Step, key: Key) {
    step == Record(true) || (ReceiptRemoving(step).Some? && ReceiptRemoving(step).value != key)
  }

  predicate DropsRecord(s: System, step: Step) {
    && s.browser.stored.Some?
    && var key := s.browser.stored.value.key;
       key !in s.acknowledged && key !in s.refused && Displaces(step, key)
  }

  /** What a step does to the record, the receipts and the orders. */
  lemma StepEffect(policy: Policy, s: System, step: Step)
    requires Enabled(policy, s, step)
    ensures var s', receipt := Apply(policy, s, step), ReceiptRemoving(step);
            && s'.browser.stored == (if step == Record(true) then Some(OrderOf(s.browser))
                                     else if receipt.Some? || step == Discard(true) then None
                                     else s.browser.stored)
            && s.acknowledged <= s'.acknowledged
            && (receipt.Some? ==> s'.acknowledged == s.acknowledged + {receipt.value})
            && (step == Record(true) || step == Discard(true) || step.Serve? ==> s'.acknowledged == s.acknowledged)
            && s'.orders == (if step.Serve? && Answer(policy, s, step.body, step.verdict) == Receipt
                             then s.orders[step.body.key := step.body] else s.orders)
  {
    hide RequestLines, RequestOf;
  }

  /** The order recorded is under another key than any before, and only a rejected checkout can be discarded. */
  lemma RecordFacts(policy: Policy, s: System, step: Step)
    requires Inv(policy, s) && Enabled(policy, s, step) && s.browser.stored.Some?
    ensures step == Record(true) ==> OrderOf(s.browser).key != s.browser.stored.value.key
    ensures step.Discard? ==> s.browser.stored.value.key in s.refused
  {
  }

  /** A step fails to keep the record exactly when it displaces the record of a checkout neither acknowledged nor rejected. */
  lemma RecordKeptStep(policy: Policy, s: System, step: Step)
    requires Inv(policy, s) && Enabled(policy, s, step)
    ensures RecordKept(s, Apply(policy, s, step)) <==> !DropsRecord(s, step)
  {
    hide Inv, Enabled, Apply, ReceiptRemoving, OrderOf;
    StepEffect(policy, s, step);
    if s.browser.stored.Some? {
      RecordFacts(policy, s, step);
    }
  }

  /** An order neither acknowledged nor in the stored record appears, or the record of one goes. */
  predicate LosesOrder(policy: Policy, s: System, step: Step) {
    var stored := s.browser.stored;
    match step
    case Serve(body, verdict) =>
      && body.key !in s.orders && Answer(policy, s, body, verdict) == Receipt
      && !(stored.Some? && stored.value.key == body.key)
    case _ =>
      && stored.Some? && stored.value.key in s.orders && stored.value.key !in s.acknowledged
      && (Displaces(step, stored.value.key) || step == Discard(true))
  }

  lemma NoneLostStep(policy: Policy, s: System, step: Step)
    requires Inv(policy, s) && Enabled(policy, s, step) && NoneLost(s)
    ensures NoneLost(Apply(policy, s, step)) <==> !LosesOrder(policy, s, step)
  {
    hide Inv, Enabled, Apply, OrderOf, Answer;
    StepEffect(policy, s, step);
    AcknowledgedOrders(policy, s);
    var s' := Apply(policy, s, step);
    if s.browser.stored.Some? {
      RecordFacts(policy, s, step);
    }
    if LosesOrder(policy, s, step) {
      var key := if step.Serve? then step.body.key else s.browser.stored.value.key;
      assert key in s'.orders && key !in s'.acknowledged;
    }
  }

  lemma AcknowledgedOrders(policy: Policy, s: System)
    requires Inv(policy, s)
    ensures s.acknowledged <= s.orders.Keys
  {
  }

  /**
   The page as it is keeps its records in a run exactly when no step of the run
   displaces the record of a checkout that is neither acknowledged nor rejected.
   */
  lemma RecordsKeptInRun(policy: Policy, states: seq<System>, steps: seq<Step>)
    requires Run(policy, states, steps)
    ensures RecordsKept(states) <==> forall i :: 0 <= i < |steps| ==> !DropsRecord(states[i], steps[i])
  {
    hide Enabled, Apply, Inv, RecordKept, DropsRecord;
    forall i | 0 <= i < |steps|
      ensures RecordKept(states[i], states[i + 1]) <==> !DropsRecord(states[i], steps[i])
    {
      RunKeeps(policy, states, steps, i);
      RecordKeptStep(policy, states[i], steps[i]);
      assert states[i + 1] == Apply(policy, states[i], steps[i]);
    }
    if forall i :: 0 <= i < |steps| ==> !DropsRecord(states[i], steps[i]) {
      forall i | 0 <= i < |states| - 1
        ensures RecordKept(states[i], states[i + 1])
      {
        assert !DropsRecord(states[i], steps[i]);
      }
    } else {
      var i :| 0 <= i < |steps| && DropsRecord(states[i], steps[i]);
      assert !RecordKept(states[i], states[i + 1]);
    }
  }

  /** No order is lost in a run exactly when no step of it loses one. */
  lemma NeverLostInRun(policy: Policy, states: seq<System>, steps: seq<Step>)
    requires Run(policy, states, steps)
    ensures NeverLost(states) <==> forall i :: 0 <= i < |steps| ==> !LosesOrder(policy, states[i], steps[i])
  {
    hide Enabled, Apply, Inv, NoneLost, LosesOrder;
    if forall i :: 0 <= i < |steps| ==> !LosesOrder(policy, states[i], steps[i]) {
      forall i | 0 <= i < |states|
        ensures NoneLost(states[i])
      {
        NoneLostSoFar(policy, states, steps, i);
      }
    } else {
      var i :| 0 <= i < |steps| && LosesOrder(policy, states[i], steps[i]);
      RunKeeps(policy, states, steps, i);
      if NoneLost(states[i]) {
        NoneLostStep(policy, states[i], steps[i]);
        assert states[i + 1] == Apply(policy, states[i], steps[i]);
      }
    }
  }

  lemma {:induction false} NoneLostSoFar(policy: Policy, states: seq<System>, steps: seq<Step>, i: nat)
    requires Run(policy, states, steps) && i < |states|
    requires forall j :: 0 <= j < |steps| ==> !LosesOrder(policy, states[j], steps[j])
    ensures NoneLost(states[i])
  {
    hide Enabled, Apply, Inv, LosesOrder;
    if i > 0 {
      hide NoneLost;
      NoneLostSoFar(policy, states, steps, i - 1);
      RunKeeps(policy, states, steps, i - 1);
      NoneLostStep(policy, states[i - 1], steps[i - 1]);
      assert states[i - 1 + 1] == Apply(policy, states[i - 1], steps[i - 1]);
    }
  }

  // ---- Which recovery screens and servers lose nothing

  lemma RecordsKeptWhenGuarded(policy: Policy, states: seq<System>, steps: seq<Step>)
    requires Run(policy, states, steps) && !policy.recoverWhileBusy
    ensures RecordsKept(states)
  {
    hide Enabled, Apply, Guarded, Inv, RecordKept;
    forall i | 0 <= i < |states| - 1
      ensures RecordKept(states[i], states[i + 1])
    {
      RunKeeps(policy, states, steps, i);
      RunGuarded(policy, states, steps, i);
      StepGuarded(policy, states[i], steps[i]);
    }
  }

  lemma NeverLostWhenGuarded(policy: Policy, states: seq<System>, steps: seq<Step>)
    requires Run(policy, states, steps) && !policy.recoverWhileBusy && policy.remembers
    ensures NeverLost(states)
  {
    hide Run;
    forall i | 0 <= i < |states|
      ensures NoneLost(states[i])
    {
      RunKeeps(policy, states, steps, i);
      RunGuarded(policy, states, steps, i);
      var s := states[i];
      forall key | key in s.orders
        ensures key in s.acknowledged || (s.browser.stored.Some? && s.browser.stored.value.key == key)
      {
        assert Settled(s, s.orders[key].key);
      }
    }
  }

  /** The buyer never continues a checkout while a submission waits for its answer. */
  ghost predicate Patient(states: seq<System>, steps: seq<Step>) {
    |states| > |steps| && forall i :: 0 <= i < |steps| && steps[i].Continue? ==> !states[i].browser.checkoutBusy
  }

  /** Such a run of the page as it is is a run of a page whose recovery waits. */
  lemma PatientRun(policy: Policy, states: seq<System>, steps: seq<Step>)
    requires Run(policy, states, steps) && Patient(states, steps)
    ensures Run(policy.(recoverWhileBusy := false), states, steps)
  {
    forall i | 0 <= i < |steps|
      ensures Enabled(policy.(recoverWhileBusy := false), states[i], steps[i])
      ensures states[i + 1] == Apply(policy.(recoverWhileBusy := false), states[i], steps[i])
    {
      SameStep(policy, states[i], steps[i]);
    }
  }

  lemma SameStep(policy: Policy, s: System, step: Step)
    requires Enabled(policy, s, step) && (step.Continue? ==> !s.browser.checkoutBusy)
    ensures Enabled(policy.(recoverWhileBusy := false), s, step)
    ensures Apply(policy.(recoverWhileBusy := false), s, step) == Apply(policy, s, step)
  {
  }

  /** With a patient buyer the page as it is keeps its records, and loses no order if the server stands by its rejections. */
  lemma PatientBuyerLosesNothing(policy: Policy, states: seq<System>, steps: seq<Step>)
    requires Run(policy, states, steps) && Patient(states, steps)
    ensures RecordsKept(states)
    ensures policy.remembers ==> NeverLost(states)
  {
    hide Run, RecordsKept, NeverLost, Patient;
    PatientRun(policy, states, steps);
    RecordsKeptWhenGuarded(policy.(recoverWhileBusy := false), states, steps);
    if policy.remembers {
      NeverLostWhenGuarded(policy.(recoverWhileBusy := false), states, steps);
    }
  }

  lemma Extend(policy: Policy, states: seq<System>, steps: seq<Step>, step: Step) returns (states': seq<System>, steps': seq<Step>)
    requires Run(policy, states, steps) && Enabled(policy, states[|steps|], step)
    ensures Run(policy, states', steps') && |steps'| == |steps| + 1 && |states'| == |steps'| + 1
    ensures states'[|steps'|] == Apply(policy, states[|steps|], step)
    ensures states'[|steps|] == states[|steps|]
  {
    hide Enabled, Apply;
    states', steps' := states + [Apply(policy, states[|steps|], step)], steps + [step];
  }

  const ONE_BALL := [CartLine("ball", "", 1)]

  function BallOrder(key: Key): Pending {
    var request := Request("kid", RequestLines(ONE_BALL, {}));
    Pending(Body(request, Quote(request, 0), "", key), key)
  }

  /** From an open store with one ball in the cart: review, quote, order. */
  lemma OrderBall(policy: Policy, states: seq<System>, steps: seq<Step>, id: Key, key: Key)
    returns (states': seq<System>, steps': seq<Step>)
    requires Run(policy, states, steps)
    requires var s := states[|steps|];
             && StoreEnabled(s.browser) && s.browser.form.None? && s.browser.cart == ONE_BALL
             && id !in s.used && key !in s.used && id != key
             && (forall h :: h in s.waiting ==> !h.OfForm())
    ensures Run(policy, states', steps') && |states'| == |steps'| + 1
    ensures var s, p := states[|steps|], BallOrder(key);
            states'[|steps'|] == s.(
              browser := s.browser.(stored := Some(p), recovery := Some(Recovery(p, false, false)), checkoutBusy := true),
              waiting := s.waiting + {Awaiting(p)}, posted := s.posted + {p.body},
              recorded := s.recorded + {p}, used := s.used + {id, key})
  {
    ghost var request := Request("kid", RequestLines(ONE_BALL, {}));
    states', steps' := QuoteBall(policy, states, steps, id, key);
    states', steps' := Extend(policy, states', steps', Record(true));
    states', steps' := Extend(policy, states', steps', Post(Sending(BallOrder(key))));
    assert states'[|steps'|].waiting == states[|steps|].waiting + {Awaiting(BallOrder(key))};
  }

  lemma QuoteBall(policy: Policy, states: seq<System>, steps: seq<Step>, id: Key, key: Key)
    returns (states': seq<System>, steps': seq<Step>)
    requires Run(policy, states, steps)
    requires var s := states[|steps|];
             && StoreEnabled(s.browser) && s.browser.form.None? && s.browser.cart == ONE_BALL
             && id !in s.used && key !in s.used && id != key
             && (forall h :: h in s.waiting ==> !h.OfForm())
    ensures Run(policy, states', steps') && |states'| == |steps'| + 1
    ensures var s, request := states[|steps|], Request("kid", RequestLines(ONE_BALL, {}));
            states'[|steps'|] == s.(
              browser := s.browser.(form := Some(Form(id, "kid", {}, "", key, Some(Quote(request, 0)), false))),
              used := s.used + {id, key})
  {
    var request := Request("kid", RequestLines(ONE_BALL, {}));
    states', steps' := Extend(policy, states, steps, OpenForm(id));
    states', steps' := Extend(policy, states', steps', ChoosePerson("kid", key));
    assert states'[|steps'|].used == states[|steps|].used + {id, key};
    states', steps' := Extend(policy, states', steps', AskQuote);
    states', steps' := Extend(policy, states', steps', QuoteReply(Quoting(id, request), Some(0)));
    assert states'[|steps'|].waiting == states[|steps|].waiting;
  }

  /**
   Recovery started beside the first submission: the late answer about the first
   order removes the record of the second, whose order the page then forgets.
   */
  lemma StaleRecovery(policy: Policy) returns (states: seq<System>, steps: seq<Step>)
    requires policy.recoverWhileBusy
    ensures Run(policy, states, steps) && |steps| > 0
    ensures !RecordKept(states[|steps| - 1], states[|steps|]) && !NoneLost(states[|steps|])
  {
    hide Run, RequestLines;
    var first, second := BallOrder(1), BallOrder(3);
    assert first.key == 1 && second.key == 3 && second.body.key == 3;
    states, steps := SecondOrdered(policy);
    hide BallOrder;
    states, steps := Extend(policy, states, steps, Serve(second.body, Commit));
    states, steps := Extend(policy, states, steps, StatusReply(AskingStatus(first), true, true));
    assert 3 in states[|steps|].orders;
  }

  lemma SecondOrdered(policy: Policy) returns (states: seq<System>, steps: seq<Step>)
    requires policy.recoverWhileBusy
    ensures Run(policy, states, steps) && |states| == |steps| + 1
    ensures var first, second := BallOrder(1), BallOrder(3);
            states[|steps|] == System(Browser(ONE_BALL, Some(Recovery(second, false, false)), None, true, Some(1), Some(second)),
                                      {AskingStatus(first), Awaiting(second)}, {first.body, second.body}, map[1 := first.body], {},
                                      {(first.body, Receipt)}, {first, second}, {1}, {0, 1, 2, 3})
  {
    hide Run, RequestLines;
    states, steps := FirstPlaced(policy);
    states, steps := Extend(policy, states, steps, ChangeCart(ONE_BALL));
    states, steps := OrderBall(policy, states, steps, 2, 3);
  }

  /** The first order is placed while its recovery is still asking for its status. */
  lemma FirstPlaced(policy: Policy) returns (states: seq<System>, steps: seq<Step>)
    requires policy.recoverWhileBusy
    ensures Run(policy, states, steps) && |states| == |steps| + 1
    ensures var first := BallOrder(1);
            states[|steps|] == System(Browser([], None, None, false, Some(1), None), {AskingStatus(first)},
                                      {first.body}, map[1 := first.body], {}, {(first.body, Receipt)}, {first}, {1}, {0, 1})
  {
    hide Run, RequestLines;
    var first := BallOrder(1);
    assert first.body.key == 1 && first.key == 1;
    states, steps := FirstAccepted(policy);
    hide BallOrder;
    states, steps := Extend(policy, states, steps, OrderReply(Awaiting(first), Receipt, true));
    assert states[|steps|].waiting == {AskingStatus(first)};
  }

  lemma FirstAccepted(policy: Policy) returns (states: seq<System>, steps: seq<Step>)
    requires policy.recoverWhileBusy
    ensures Run(policy, states, steps) && |states| == |steps| + 1
    ensures var first := BallOrder(1);
            states[|steps|] == System(Browser(ONE_BALL, Some(Recovery(first, true, false)), None, true, None, Some(first)),
                                      {Awaiting(first), AskingStatus(first)},
                                      {first.body}, map[1 := first.body], {}, {(first.body, Receipt)}, {first}, {}, {0, 1})
  {
    hide Run, RequestLines;
    var first := BallOrder(1);
    assert first.body.key == 1;
    states, steps := FirstOrdered(policy);
    hide BallOrder;
    states, steps := Extend(policy, states, steps, Continue);
    states, steps := Extend(policy, states, steps, Serve(first.body, Commit));
  }

  /** A retry is rejected and its record discarded; then the server accepts the delayed first request. */
  lemma LateAcceptance(policy: Policy) returns (states: seq<System>, steps: seq<Step>)
    requires !policy.remembers
    ensures Run(policy, states, steps) && !NoneLost(states[|steps|])
  {
    hide Run, RequestLines;
    var first := BallOrder(1);
    assert first.body.key == 1;
    states, steps := FirstRejected(policy);
    hide BallOrder;
    states, steps := Extend(policy, states, steps, Discard(true));
    states, steps := Extend(policy, states, steps, Serve(first.body, Commit));
    assert 1 in states[|steps|].orders;
  }

  lemma FirstOrdered(policy: Policy) returns (states: seq<System>, steps: seq<Step>)
    ensures Run(policy, states, steps) && |states| == |steps| + 1
    ensures var first := BallOrder(1);
            states[|steps|] == System(Browser(ONE_BALL, Some(Recovery(first, false, false)), None, true, None, Some(first)), {Awaiting(first)},
                                      {first.body}, map[], {}, {}, {first}, {}, {0, 1})
  {
    hide RequestLines;
    states, steps := [Start(ONE_BALL)], [];
    assert states[0] == Start(ONE_BALL);
    states, steps := OrderBall(policy, states, steps, 0, 1);
  }

  lemma FirstResent(policy: Policy) returns (states: seq<System>, steps: seq<Step>)
    ensures Run(policy, states, steps) && |states| == |steps| + 1
    ensures var first := BallOrder(1);
            states[|steps|] == System(Browser(ONE_BALL, Some(Recovery(first, true, false)), None, false, None, Some(first)), {Resending(first)},
                                      {first.body}, map[], {}, {}, {first}, {}, {0, 1})
  {
    hide Run, RequestLines;
    var first := BallOrder(1);
    states, steps := FirstOrdered(policy);
    states, steps := Extend(policy, states, steps, OrderReply(Awaiting(first), Failed, true));
    hide BallOrder;
    assert states[|steps|].waiting == {};
    states, steps := Extend(policy, states, steps, Continue);
    states, steps := Extend(policy, states, steps, StatusReply(AskingStatus(first), false, true));
    assert states[|steps|].waiting == {Resending(first)};
  }

  lemma FirstRejected(policy: Policy) returns (states: seq<System>, steps: seq<Step>)
    requires !policy.remembers
    ensures Run(policy, states, steps) && |states| == |steps| + 1
    ensures var first := BallOrder(1);
            states[|steps|] == System(Browser(ONE_BALL, Some(Recovery(first, false, true)), None, false, None, Some(first)), {},
                                      {first.body}, map[], {1}, {(first.body, Rejected)}, {first}, {}, {0, 1})
  {
    hide Run, RequestLines;
    var first := BallOrder(1);
    states, steps := FirstResent(policy);
    hide BallOrder;
    states, steps := Extend(policy, states, steps, Serve(first.body, Refuse));
    states, steps := Extend(policy, states, steps, ResendReply(Resending(first), Rejected, true));
    assert states[|steps|].waiting == {};
  }

  /**
   In every run a stored record leaves only after its own receipt or a definitive
   rejection, exactly when recovery cannot be started while a submission waits.
   */
  lemma RecordsKeptExactly(policy: Policy)
    ensures (forall states: seq<System>, steps: seq<Step> :: Run(policy, states, steps) ==> RecordsKept(states))
       <==> !policy.recoverWhileBusy
  {
    if policy.recoverWhileBusy {
      var states, steps := StaleRecovery(policy);
      assert !RecordsKept(states) by {
        assert states[|steps| - 1 + 1] == states[|steps|];
      }
    } else {
      forall states: seq<System>, steps: seq<Step> | Run(policy, states, steps)
        ensures RecordsKept(states)
      {
        RecordsKeptWhenGuarded(policy, states, steps);
      }
    }
  }

  /**
   In no run is an order lost to both the buyer and the browser, exactly when
   recovery waits for the submission and the server stands by its rejections.
   */
  lemma NeverLostExactly(policy: Policy)
    ensures (forall states: seq<System>, steps: seq<Step> :: Run(policy, states, steps) ==> NeverLost(states))
       <==> !policy.recoverWhileBusy && policy.remembers
  {
    if policy.recoverWhileBusy {
      var states, steps := StaleRecovery(policy);
      assert !NeverLost(states);
    } else if !policy.remembers {
      var states, steps := LateAcceptance(policy);
      assert !NeverLost(states);
    } else {
      forall states: seq<System>, steps: seq<Step> | Run(policy, states, steps)
        ensures NeverLost(states)
      {
        NeverLostWhenGuarded(policy, states, steps);
      }
    }
  }
}
