/**
 * The user-facing handlers of user_api.go: the invoice payload of a warmup
 * group purchase and its parsing when the pre-checkout query arrives, the
 * checks that query must pass, the choice between opening a group and billing
 * for it, the parsing of inline-button callbacks and the routing of typed
 * text. Database rows are parameters; replies and invoices are returned
 * values.
 */
module UserApi {
  import opened Wrappers
  import opened Text
  import opened StateStore
  import opened UserGroups

  const WarmupPayloadChecker: string := "BuyWarmupGroup"
  const PayloadSplit: char := '|'
  const PaymentErrorText: string := "Произошла ошибка при проведении платежа!"
  const InvoiceCurrency: string := "RUB"

  const AccountSettingsMenu: string := "AccountSettingsMenu"
  const WarmupNotificationsMenu: string := "WarmupNotificationsMenu"
  const WarmupGroupsMenu: string := "WarmupGroupsMenu"
  const WarmupsMenu: string := "WarmupsMenu"
  const WannabeStudentSGSendReq: string := "WannabeStudentSG_SendReq"
  const SelectedWarmupGroup: string := "selectedWarmupGroup"
  const BecomeAdminText: string := "СТАТЬ АДМИНОМ"

  /** The captions of the main user keyboard (user_menus.go). */
  const MainUserMenuOptions: seq<string> :=
    ["Распевки", "Напоминания", "Записаться на урок", "Обо мне", "Настройки аккаунта"]

  // -------------------------------------------------------- invoice payload

  /** The payload `processWarmupGroup` puts on the invoice of a group. */
  function InvoicePayload(groupID: string): string
  {
    WarmupPayloadChecker + [PayloadSplit] + groupID
  }

  /**
   * The group id `onUserCheckout` reads from a payload: exactly two pieces
   * around `|`, the first being the checker word.
   */
  function PayloadGroup(payload: string): (r: Option<string>)
    ensures r.Some? ==> PayloadSplit !in r.value
  {
    var parts := Split(payload, PayloadSplit);
    if |parts| != 2 then None
    else if parts[0] != WarmupPayloadChecker then None
    else Some(parts[1])
  }

  /** An invoice payload parses back to the group it was built for. */
  lemma PayloadRoundTrip(groupID: string)
    requires PayloadSplit !in groupID
    ensures PayloadGroup(InvoicePayload(groupID)) == Some(groupID)
  {
    assert PayloadSplit !in WarmupPayloadChecker;
    SplitTwo(WarmupPayloadChecker, PayloadSplit, groupID);
  }

  /** Conversely, every payload that parses is the invoice payload of its group. */
  lemma PayloadGroupInverse(payload: string)
    ensures PayloadGroup(payload).Some? ==> payload == InvoicePayload(PayloadGroup(payload).value)
  {
    var parts := Split(payload, PayloadSplit);
    if |parts| == 2 {
      assert Join(parts[1..], PayloadSplit) == parts[1];
      assert Join(parts, PayloadSplit) == parts[0] + [PayloadSplit] + parts[1];
    }
  }

  // ------------------------------------------------------------- checkout

  /** A row of `warmup_groups`: the group's name and its price in roubles. */
  datatype WarmupGroup = WarmupGroup(name: string, price: int)

  /** The fields of a pre-checkout query the handler reads. */
  datatype PreCheckout = PreCheckout(id: string, payload: string, total: int, currency: string)

  /** The row `onUserCheckout` inserts into `acquired_warmup_groups`. */
  datatype Purchase = Purchase(userID: int, groupID: string, checkoutID: string, priceWhenAcquired: string)

  /** The answer to a pre-checkout query: accepted, or refused with a message. */
  datatype CheckoutAnswer = Accept | Refuse(message: string)

  /** What one checkout does: its answer and the purchase row it tried to insert. */
  datatype CheckoutStep = CheckoutStep(answer: CheckoutAnswer, insert: Option<Purchase>)

  /**
   * `onUserCheckout`: the payload must name a known group whose price in
   * kopecks equals the total, and the purchase must be stored; every failure
   * is answered with the payment error text.
   */
  function OnUserCheckout(userID: int, q: PreCheckout, groups: map<string, WarmupGroup>, insertOk: bool): (r: CheckoutStep)
    ensures r.answer.Refuse? ==> r.answer.message == PaymentErrorText
    ensures r.answer.Accept? ==> r.insert.Some?
    ensures r.insert.Some? ==>
      && r.insert.value.userID == userID
      && r.insert.value.checkoutID == q.id
      && r.insert.value.priceWhenAcquired == IntToString(q.total) + q.currency
      && q.payload == InvoicePayload(r.insert.value.groupID)
  {
    var refuse := Refuse(PaymentErrorText);
    match PayloadGroup(q.payload)
    case None => CheckoutStep(refuse, None)
    case Some(groupID) =>
      PayloadGroupInverse(q.payload);
      if groupID !in groups then CheckoutStep(refuse, None)
      else if groups[groupID].price * 100 != q.total then CheckoutStep(refuse, None)
      else
        var purchase := Purchase(userID, groupID, q.id, IntToString(q.total) + q.currency);
        CheckoutStep(if insertOk then Accept else refuse, Some(purchase))
  }

  /**
   * For a payload built for a group, the checkout is accepted exactly when
   * the group exists, its price times 100 equals the total and the insert
   * succeeds.
   */
  lemma CheckoutOfGroupPayload(userID: int, groupID: string, q: PreCheckout, groups: map<string, WarmupGroup>, insertOk: bool)
    requires PayloadSplit !in groupID
    requires q.payload == InvoicePayload(groupID)
    ensures OnUserCheckout(userID, q, groups, insertOk).answer.Accept? <==>
      groupID in groups && groups[groupID].price * 100 == q.total && insertOk
  {
    PayloadRoundTrip(groupID);
  }

  /** A payload that is no group's invoice payload is refused before any insert. */
  lemma CheckoutOfForeignPayload(userID: int, q: PreCheckout, groups: map<string, WarmupGroup>, insertOk: bool)
    requires forall groupID | PayloadSplit !in groupID :: q.payload != InvoicePayload(groupID)
    ensures OnUserCheckout(userID, q, groups, insertOk) == CheckoutStep(Refuse(PaymentErrorText), None)
  {
    PayloadGroupInverse(q.payload);
  }

  // ---------------------------------------------------- opening a group

  /** The row `processWarmupGroup` selects: purchase flag, price, name. */
  datatype GroupOffer = GroupOffer(acquired: bool, price: int, name: string)

  /** The invoice fields the bot fills in (the provider token is left out). */
  datatype Invoice = Invoice(title: string, description: string, payload: string, currency: string, amount: int)

  datatype GroupClick = GroupLookupFailed | ShowWarmups | SendInvoice(invoice: Invoice)

  /** The left join of `warmup_groups` with the user's purchases. */
  function OfferOf(groups: map<string, WarmupGroup>, acquired: set<string>, groupID: string): (r: Option<GroupOffer>)
    ensures r.Some? <==> groupID in groups
  {
    if groupID in groups then Some(GroupOffer(groupID in acquired, groups[groupID].price, groups[groupID].name))
    else None
  }

  /**
   * `processWarmupGroup`: a free or already bought group opens the warmups
   * menu; any other group is billed at its price in kopecks.
   */
  function ProcessWarmupGroup(groupID: string, offer: Option<GroupOffer>): (r: GroupClick)
    ensures r.GroupLookupFailed? <==> offer.None?
    ensures r.ShowWarmups? <==> offer.Some? && (offer.value.price == 0 || offer.value.acquired)
    ensures r.SendInvoice? ==> r.invoice.amount == offer.value.price * 100 && r.invoice.currency == InvoiceCurrency
    ensures r.SendInvoice? && PayloadSplit !in groupID ==> PayloadGroup(r.invoice.payload) == Some(groupID)
  {
    match offer
    case None => GroupLookupFailed
    case Some(o) =>
      if o.price == 0 || o.acquired then ShowWarmups
      else
        assert PayloadSplit !in groupID ==> PayloadGroup(InvoicePayload(groupID)) == Some(groupID) by {
          if PayloadSplit !in groupID {
            PayloadRoundTrip(groupID);
          }
        }
        SendInvoice(Invoice("Покупка пакета распевок", "Пакет распевок '" + o.name + "'",
                            InvoicePayload(groupID), InvoiceCurrency, o.price * 100))
  }

  /**
   * Paying the invoice a group produces is accepted by the checkout and
   * records that group at the billed amount.
   */
  lemma PaidInvoiceAccepted(userID: int, checkoutID: string, groupID: string,
                            groups: map<string, WarmupGroup>, acquired: set<string>)
    requires PayloadSplit !in groupID
    requires groupID in groups && groups[groupID].price != 0 && groupID !in acquired
    ensures ProcessWarmupGroup(groupID, OfferOf(groups, acquired, groupID)).SendInvoice?
    ensures
      var inv := ProcessWarmupGroup(groupID, OfferOf(groups, acquired, groupID)).invoice;
      OnUserCheckout(userID, PreCheckout(checkoutID, inv.payload, inv.amount, inv.currency), groups, true)
      == CheckoutStep(Accept, Some(Purchase(userID, groupID, checkoutID, IntToString(groups[groupID].price * 100) + InvoiceCurrency)))
  {
    PayloadRoundTrip(groupID);
  }

  // ------------------------------------------------------------- callbacks

  /**
   * `OnUserInlineResult` drops the first character of the callback data and
   * splits the rest on `|`: the unique, then the menu name. Empty data or a
   * rest without `|` makes the Go code panic; that is `None` here.
   */
  function ParseCallback(data: string): (r: Option<(string, string)>)
    ensures r.None? <==> |data| == 0 || PayloadSplit !in data[1..]
    ensures r.Some? ==> PayloadSplit !in r.value.0 && PayloadSplit !in r.value.1
  {
    if |data| == 0 then None
    else
      var parts := Split(data[1..], PayloadSplit);
      SplitCount(data[1..], PayloadSplit);
      if |parts| < 2 then None else Some((parts[0], parts[1]))
  }

  /** Splitting yields a second piece exactly when the separator occurs. */
  lemma SplitCount(s: string, sep: char)
    ensures |Split(s, sep)| >= 2 <==> sep in s
  {
  }

  /** The callback of a button `"\f" + unique + "|" + menu` parses back to its parts. */
  lemma CallbackRoundTrip(lead: char, unique: string, menu: string)
    requires PayloadSplit !in unique && PayloadSplit !in menu
    ensures ParseCallback([lead] + unique + [PayloadSplit] + menu) == Some((unique, menu))
  {
    var data := [lead] + unique + [PayloadSplit] + menu;
    assert data[1..] == unique + [PayloadSplit] + menu;
    SplitTwo(unique, PayloadSplit, menu);
  }

  datatype CallbackAction = OpenGroup(groupID: string) | OpenWarmup(warmupID: string) | NoAction

  /** The menu a callback came from decides what its unique opens. */
  function CallbackActionOf(unique: string, menu: string): (r: CallbackAction)
    ensures r.OpenGroup? <==> menu == WarmupGroupsMenu
    ensures r.OpenWarmup? <==> menu == WarmupsMenu
    ensures r != NoAction ==> (r.OpenGroup? && r.groupID == unique) || (r.OpenWarmup? && r.warmupID == unique)
  {
    if menu == WarmupGroupsMenu then OpenGroup(unique)
    else if menu == WarmupsMenu then OpenWarmup(unique)
    else NoAction
  }

  /**
   * `OnUserInlineResult`: a group click remembers the group in the user's
   * `selectedWarmupGroup` var before opening it; nothing else is written.
   */
  method OnUserInlineResult(store: Store, userID: int, data: string) returns (crashed: bool, action: CallbackAction)
    modifies store
    ensures crashed <==> ParseCallback(data).None?
    ensures !crashed ==> action == CallbackActionOf(ParseCallback(data).value.0, ParseCallback(data).value.1)
    ensures crashed ==> action == NoAction
    ensures action.OpenGroup? ==> store.rows == WriteVar(old(store.rows), userID, SelectedWarmupGroup, action.groupID)
    ensures !action.OpenGroup? ==> store.rows == old(store.rows)
  {
    var parsed := ParseCallback(data);
    if parsed.None? {
      return true, NoAction;
    }
    var (unique, menu) := parsed.value;
    crashed, action := false, CallbackActionOf(unique, menu);
    if action.OpenGroup? {
      store.SetStateVar(userID, SelectedWarmupGroup, unique);
    }
  }

  // ----------------------------------------------------------- typed text

  datatype TextRoute =
    | DialogUpdate
    | ShowMenu(menu: string)
    | StartState(state: string)
    | AboutMe
    | SetGroup(userID: int, group: UserGroup)
    | NoRoute

  /** Whether the user is in the middle of a dialog (`HasState`). */
  predicate InDialog(t: Table, userID: int)
  {
    ReadState(t, userID) != NoState
  }

  /**
   * `onUserText`: an open dialog takes every text; otherwise the main menu
   * captions open their menus and the supervisor may promote themself.
   */
  function OnUserText(t: Table, userID: int, text: string, supervisorID: int): (r: TextRoute)
    ensures InDialog(t, userID) ==> r == DialogUpdate
    ensures r.SetGroup? <==>
      !InDialog(t, userID) && text == BecomeAdminText && supervisorID != 0 && userID == supervisorID
    ensures r.SetGroup? ==> r == SetGroup(userID, UGAdmin)
  {
    if InDialog(t, userID) then DialogUpdate
    else if text == "Распевки" then ShowMenu(WarmupGroupsMenu)
    else if text == "Напоминания" then ShowMenu(WarmupNotificationsMenu)
    else if text == "Записаться на урок" then StartState(WannabeStudentSGSendReq)
    else if text == "Обо мне" then AboutMe
    else if text == "Настройки аккаунта" then ShowMenu(AccountSettingsMenu)
    else if text == BecomeAdminText && supervisorID != 0 && userID == supervisorID then SetGroup(userID, UGAdmin)
    else NoRoute
  }

  /** Outside a dialog, every caption of the main user keyboard has a handler. */
  lemma MainMenuOptionsRouted(t: Table, userID: int, supervisorID: int, i: int)
    requires !InDialog(t, userID) && 0 <= i < |MainUserMenuOptions|
    ensures OnUserText(t, userID, MainUserMenuOptions[i], supervisorID) != NoRoute
    ensures !OnUserText(t, userID, MainUserMenuOptions[i], supervisorID).SetGroup?
  {
  }

  /** `onUnregisteredText`: only an open dialog reacts to text. */
  function OnUnregisteredText(t: Table, userID: int): (r: TextRoute)
    ensures r == DialogUpdate <==> InDialog(t, userID)
    ensures r != DialogUpdate ==> r == NoRoute
  {
    if InDialog(t, userID) then DialogUpdate else NoRoute
  }
}
