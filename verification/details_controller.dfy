/** The controller of the catalog item detail page
    (client/app/states/catalogs/details/details.state.js): the dialogs it
    shows, when "add to cart" is disabled, the payload it submits, and the
    add-to-cart exchange with its notifications.

    The controller is an immutable record; each controller function
    becomes a function from record to record. The shopping cart, the
    dialog field helper and the notification service are outside the
    model: the cart's `allowed()` answer and the outcome of `add` are
    parameters, and notifications are collected in the record. */
module DetailsController {
  import opened Wrappers
  import opened Text
  import opened CatalogRoutes

  /** One dialog of a service template; its contents are opaque here. */
  datatype Dialog = Dialog(title: string, fields: map<string, string>)

  datatype DialogResource = DialogResource(content: seq<Dialog>)

  /** The `service_dialogs` query result: a count and the dialog resources. */
  datatype DialogsResponse = DialogsResponse(subcount: int, resources: seq<DialogResource>)

  datatype ServiceTemplate = ServiceTemplate(id: string, name: string, catalogId: string)

  datatype Notification = SuccessNote(text: string) | ErrorNote(text: string)

  /** `vm`: the controller's state. `addingToCart` is `None` until the
      first add (JavaScript leaves it undefined). */
  datatype DetailsVm = DetailsVm(
    template: ServiceTemplate,
    parsedDialogs: seq<Dialog>,
    addToCartEnabled: bool,
    dialogData: map<string, string>,
    addingToCart: Option<bool>,
    dialogUrl: string,
    notifications: seq<Notification>)

  /** What the dialog component reports through `setDialogData`. */
  datatype DialogOutput = DialogOutput(isValid: bool, data: map<string, string>)

  /** The errors the controller can throw while starting. */
  datatype ControllerError = NoDialogResource  // `dialogs.resources[0]` is undefined

  /** `DialogFieldRefresh.setFieldValueDefaults`: fills a dialog's fields
      from the values of an earlier request. Opaque, so a parameter. */
  type FieldDefaults = (Dialog, map<string, string>) -> Dialog

  const TemplateHrefKey: string := "service_template_href"
  const TemplateHrefPrefix: string := "/api/service_templates/"
  const AddedText: string := "Item added to shopping cart"
  const AddedDuplicateText: string := "Item added to shopping cart, but it's a duplicate of an existing item"
  const AddErrorPrefix: string := "There was an error adding to shopping cart: "

  /** `vm.parsedDialogs` as the controller builds it: nothing when the
      query found no dialogs, the first resource's dialogs as they are
      for a new order, and each of them filled with the earlier request's
      values when duplicating. */
  method ParseDialogs(dialogs: DialogsResponse, request: Option<ServiceRequest>, setDefaults: FieldDefaults)
    returns (r: Result<seq<Dialog>, ControllerError>)
    ensures dialogs.subcount <= 0 ==> r == Success([])
    ensures dialogs.subcount > 0 && |dialogs.resources| == 0 ==> r == Failure(NoDialogResource)
    ensures dialogs.subcount > 0 && |dialogs.resources| > 0 && request.None?
            ==> r == Success(dialogs.resources[0].content)
    ensures dialogs.subcount > 0 && |dialogs.resources| > 0 && request.Some?
            ==> && r.Success?
                && |r.value| == |dialogs.resources[0].content|
                && forall i :: 0 <= i < |r.value| ==>
                     r.value[i] == setDefaults(dialogs.resources[0].content[i], request.value.dialogValues)
  {
    if dialogs.subcount <= 0 {
      return Success([]);
    }
    if |dialogs.resources| == 0 {
      return Failure(NoDialogResource);
    }
    var content := dialogs.resources[0].content;
    if request.None? {
      return Success(content);
    }
    var existing := request.value.dialogValues;
    var parsed: seq<Dialog> := [];
    var i := 0;
    while i < |content|
      invariant 0 <= i <= |content|
      invariant |parsed| == i
      invariant forall j :: 0 <= j < i ==> parsed[j] == setDefaults(content[j], existing)
    {
      parsed := parsed + [setDefaults(content[i], existing)];
      i := i + 1;
    }
    return Success(parsed);
  }

  /** `vm.dialogUrl`: where dialog fields of this template are refreshed. */
  function DialogUrl(template: ServiceTemplate): string
  {
    "service_catalogs/" + template.catalogId + "/service_templates"
  }

  /** The controller's start: dialogs parsed, add-to-cart not yet enabled,
      no dialog data, nothing added and nothing notified. */
  method NewController(dialogs: DialogsResponse, template: ServiceTemplate,
                       request: Option<ServiceRequest>, setDefaults: FieldDefaults)
    returns (r: Result<DetailsVm, ControllerError>)
    ensures r.Failure? <==> dialogs.subcount > 0 && |dialogs.resources| == 0
    ensures r.Success? ==>
      && r.value.template == template
      && !r.value.addToCartEnabled
      && r.value.dialogData == map[]
      && r.value.addingToCart == None
      && r.value.notifications == []
      && r.value.dialogUrl == DialogUrl(template)
    ensures r.Success? && request.None? && dialogs.subcount > 0 ==>
      r.value.parsedDialogs == dialogs.resources[0].content
    ensures r.Success? && dialogs.subcount <= 0 ==> r.value.parsedDialogs == []
    ensures r.Success? && request.Some? && dialogs.subcount > 0 && |dialogs.resources| > 0 ==>
      && |r.value.parsedDialogs| == |dialogs.resources[0].content|
      && forall i :: 0 <= i < |r.value.parsedDialogs| ==>
           r.value.parsedDialogs[i] == setDefaults(dialogs.resources[0].content[i], request.value.dialogValues)
  {
    var parsed := ParseDialogs(dialogs, request, setDefaults);
    if parsed.Failure? {
      return Failure(parsed.error);
    }
    return Success(DetailsVm(template, parsed.value, false, map[], None, DialogUrl(template), []));
  }

  /** `setDialogData`: remember the dialog's values and whether they are valid. */
  function SetDialogData(vm: DetailsVm, output: DialogOutput): (r: DetailsVm)
    ensures r.addToCartEnabled == output.isValid && r.dialogData == output.data
    ensures r == vm.(addToCartEnabled := r.addToCartEnabled, dialogData := r.dialogData)
  {
    vm.(addToCartEnabled := output.isValid, dialogData := output.data)
  }

  /** `addToCartDisabled`, for the cart's current `allowed()` answer. */
  function AddToCartDisabled(vm: DetailsVm, cartAllowed: bool): bool
  {
    !cartAllowed || !vm.addToCartEnabled
  }

  /** The dialog reports `outputs`, in order. */
  function ApplyDialogOutputs(vm: DetailsVm, outputs: seq<DialogOutput>): DetailsVm
    decreases |outputs|
  {
    if |outputs| == 0 then vm
    else ApplyDialogOutputs(SetDialogData(vm, outputs[0]), outputs[1..])
  }

  /** After any sequence of dialog reports, "add to cart" is disabled
      exactly when the cart is not allowed or the last report was invalid
      (or, with no report yet, when it was disabled before), and the
      dialog data are the last report's. */
  lemma {:induction false} DisabledFollowsLastReport(vm: DetailsVm, outputs: seq<DialogOutput>, cartAllowed: bool)
    ensures var r := ApplyDialogOutputs(vm, outputs);
      && (|outputs| == 0 ==> r == vm)
      && (|outputs| > 0 ==>
            && (AddToCartDisabled(r, cartAllowed) <==> !cartAllowed || !outputs[|outputs| - 1].isValid)
            && r.dialogData == outputs[|outputs| - 1].data)
      && r.notifications == vm.notifications
      && r.template == vm.template
    decreases |outputs|
  {
    if |outputs| > 0 {
      var next := SetDialogData(vm, outputs[0]);
      DisabledFollowsLastReport(next, outputs[1..], cartAllowed);
      if |outputs| > 1 {
        assert outputs[1..][|outputs[1..]| - 1] == outputs[|outputs| - 1];
      }
    }
  }

  /** A freshly started controller keeps "add to cart" disabled until the
      dialog reports valid data, whatever the cart says. */
  lemma {:induction false} StartsDisabled(vm: DetailsVm, outputs: seq<DialogOutput>, cartAllowed: bool)
    requires !vm.addToCartEnabled
    requires forall i :: 0 <= i < |outputs| ==> !outputs[i].isValid
    ensures AddToCartDisabled(ApplyDialogOutputs(vm, outputs), cartAllowed)
  {
    DisabledFollowsLastReport(vm, outputs, cartAllowed);
  }

  /** `dataForSubmit(href)`: the dialog data with `href` set to the
      template's API link. `lodash.merge` writes into `vm.dialogData`
      itself, so the controller keeps the merged data. */
  function DataForSubmit(vm: DetailsVm, href: string): (r: (DetailsVm, map<string, string>))
    ensures var (vm', data) := r;
      && vm' == vm.(dialogData := data)
      && data.Keys == vm.dialogData.Keys + {href}
      && data[href] == TemplateHrefPrefix + vm.template.id
      && forall k :: k in vm.dialogData && k != href ==> data[k] == vm.dialogData[k]
  {
    var data := vm.dialogData[href := TemplateHrefPrefix + vm.template.id];
    (vm.(dialogData := data), data)
  }

  /** Preparing the payload twice changes nothing the second time. */
  lemma DataForSubmitIdempotent(vm: DetailsVm, href: string)
    ensures var (vm1, data1) := DataForSubmit(vm, href);
      DataForSubmit(vm1, href) == (vm1, data1)
  {
    var (vm1, data1) := DataForSubmit(vm, href);
    var (vm2, data2) := DataForSubmit(vm1, href);
    assert data2 == data1;
  }

  /** `alreadyInCart`: asks the cart (opaque here) about the prepared payload. */
  function AlreadyInCart(vm: DetailsVm, isDuplicate: map<string, string> -> bool): (r: (DetailsVm, bool))
    ensures r.0 == DataForSubmit(vm, TemplateHrefKey).0
    ensures r.1 == isDuplicate(r.0.dialogData)
    ensures TemplateHrefKey in r.0.dialogData
  {
    var (vm', data) := DataForSubmit(vm, TemplateHrefKey);
    (vm', isDuplicate(data))
  }

  /** The item handed to `ShoppingCart.add`. */
  datatype CartItem = CartItem(description: string, data: map<string, string>)

  /** How the cart answered: added (possibly as a duplicate), or rejected
      with a comma-separated message. */
  datatype AddOutcome = Added(duplicate: bool) | Rejected(message: string)

  /** The synchronous part of `addToCart`: nothing at all when the cart is
      not allowed; otherwise the payload is prepared, `addingToCart` set,
      and the item to add returned. */
  function StartAddToCart(vm: DetailsVm, cartAllowed: bool): (r: (DetailsVm, Option<CartItem>))
    ensures !cartAllowed ==> r == (vm, None)
    ensures cartAllowed ==>
      r.0 == vm.(dialogData := DataForSubmit(vm, TemplateHrefKey).1, addingToCart := Some(true))
    ensures cartAllowed ==>
      && r.0.addingToCart == Some(true)
      && r.1 == Some(CartItem(vm.template.name, r.0.dialogData))
      && TemplateHrefKey in r.0.dialogData
      && r.0.dialogData[TemplateHrefKey] == TemplateHrefPrefix + vm.template.id
      && r.0.notifications == vm.notifications
  {
    if !cartAllowed then (vm, None)
    else
      var (vm', data) := DataForSubmit(vm, TemplateHrefKey);
      (vm'.(addingToCart := Some(true)), Some(CartItem(vm.template.name, data)))
  }

  /** Asking whether the item is already in the cart asks about exactly the
      item a following add submits, and leaves that add unchanged. */
  lemma AlreadyInCartMatchesAdd(vm: DetailsVm, isDuplicate: map<string, string> -> bool)
    ensures StartAddToCart(AlreadyInCart(vm, isDuplicate).0, true) == StartAddToCart(vm, true)
    ensures AlreadyInCart(vm, isDuplicate).1 == isDuplicate(StartAddToCart(vm, true).1.value.data)
  {
    DataForSubmitIdempotent(vm, TemplateHrefKey);
  }

  /** The notifications a settled add emits: one success note, worded for
      a duplicate iff it is one, or one prefixed error note per
      comma-separated part of the rejection message, in order. */
  function OutcomeNotes(outcome: AddOutcome): seq<Notification>
  {
    match outcome
    case Added(duplicate) => [SuccessNote(if duplicate then AddedDuplicateText else AddedText)]
    case Rejected(message) =>
      var errors := Split(message, ',');
      seq(|errors|, i requires 0 <= i < |errors| => ErrorNote(AddErrorPrefix + errors[i]))
  }

  /** `addSuccess`: one success notification, worded for a duplicate iff
      the cart says it is one. */
  function AddSuccess(vm: DetailsVm, duplicate: bool): (r: DetailsVm)
    ensures |r.notifications| == |vm.notifications| + 1
    ensures r.notifications[..|vm.notifications|] == vm.notifications
    ensures r.notifications[|vm.notifications|].SuccessNote?
    ensures r.notifications[|vm.notifications|].text == AddedDuplicateText <==> duplicate
    ensures r.notifications == vm.notifications + [SuccessNote(if duplicate then AddedDuplicateText else AddedText)]
    ensures r == vm.(notifications := r.notifications)
  {
    vm.(notifications := vm.notifications + [SuccessNote(if duplicate then AddedDuplicateText else AddedText)])
  }

  /** `addFailure`: one error notification per comma-separated part of
      the message, in order. */
  method AddFailure(vm: DetailsVm, message: string) returns (r: DetailsVm)
    ensures var errors := Split(message, ',');
      && |r.notifications| == |vm.notifications| + |errors|
      && r.notifications[..|vm.notifications|] == vm.notifications
      && forall i :: 0 <= i < |errors| ==>
           r.notifications[|vm.notifications| + i] == ErrorNote(AddErrorPrefix + errors[i])
    ensures r == vm.(notifications := r.notifications)
  {
    var errors := Split(message, ',');
    var notes := vm.notifications;
    var i := 0;
    while i < |errors|
      invariant 0 <= i <= |errors|
      invariant |notes| == |vm.notifications| + i
      invariant notes[..|vm.notifications|] == vm.notifications
      invariant forall j :: 0 <= j < i ==> notes[|vm.notifications| + j] == ErrorNote(AddErrorPrefix + errors[j])
    {
      notes := notes + [ErrorNote(AddErrorPrefix + errors[i])];
      i := i + 1;
    }
    r := vm.(notifications := notes);
  }

  /** The asynchronous end of `addToCart`: notify, then clear
      `addingToCart` whichever way the cart answered. */
  method FinishAddToCart(vm: DetailsVm, outcome: AddOutcome) returns (r: DetailsVm)
    ensures r.addingToCart == Some(false)
    ensures |r.notifications| >= |vm.notifications|
    ensures r.notifications[..|vm.notifications|] == vm.notifications
    ensures outcome.Added? ==>
      && |r.notifications| == |vm.notifications| + 1
      && r.notifications[|vm.notifications|]
           == SuccessNote(if outcome.duplicate then AddedDuplicateText else AddedText)
    ensures outcome.Rejected? ==>
      && |r.notifications| == |vm.notifications| + Occurrences(outcome.message, ',') + 1
      && |r.notifications| == |vm.notifications| + |Split(outcome.message, ',')|
      && forall i :: 0 <= i < |Split(outcome.message, ',')| ==>
           r.notifications[|vm.notifications| + i] == ErrorNote(AddErrorPrefix + Split(outcome.message, ',')[i])
    ensures r.notifications == vm.notifications + OutcomeNotes(outcome)
    ensures r == vm.(notifications := r.notifications, addingToCart := Some(false))
  {
    var notified: DetailsVm;
    match outcome {
      case Added(duplicate) =>
        notified := AddSuccess(vm, duplicate);
      case Rejected(message) =>
        notified := AddFailure(vm, message);
        SplitCount(message, ',');
        var errors := Split(message, ',');
        var expected := vm.notifications + OutcomeNotes(outcome);
        assert |notified.notifications| == |expected|;
        forall i | 0 <= i < |expected|
          ensures notified.notifications[i] == expected[i]
        {
          if i < |vm.notifications| {
            assert notified.notifications[i] == notified.notifications[..|vm.notifications|][i];
          } else {
            var j := i - |vm.notifications|;
            assert notified.notifications[|vm.notifications| + j] == ErrorNote(AddErrorPrefix + errors[j]);
          }
        }
    }
    r := notified.(addingToCart := Some(false));
  }

  /** `addToCart` from click to settled promise: when the cart is not
      allowed nothing is added and the controller is untouched; otherwise
      the item carries the prepared payload, and once the cart answers
      `addingToCart` is false again and the answer has been notified. */
  method AddToCart(vm: DetailsVm, cartAllowed: bool, outcome: AddOutcome)
    returns (r: DetailsVm, added: Option<CartItem>)
    ensures !cartAllowed ==> r == vm && added.None?
    ensures cartAllowed ==>
      r == vm.(dialogData := DataForSubmit(vm, TemplateHrefKey).1, addingToCart := Some(false),
               notifications := r.notifications)
    ensures cartAllowed ==> r.notifications == vm.notifications + OutcomeNotes(outcome)
    ensures AddToCartDisabled(r, cartAllowed) == AddToCartDisabled(vm, cartAllowed)
    ensures cartAllowed ==>
      && added.Some?
      && added.value.description == vm.template.name
      && added.value.data == r.dialogData
      && r.dialogData == DataForSubmit(vm, TemplateHrefKey).1
      && r.addingToCart == Some(false)
      && |r.notifications| > |vm.notifications|
      && r.notifications[..|vm.notifications|] == vm.notifications
    ensures cartAllowed && outcome.Added? ==> |r.notifications| == |vm.notifications| + 1
    ensures cartAllowed && outcome.Rejected? ==>
      && |r.notifications| == |vm.notifications| + Occurrences(outcome.message, ',') + 1
      && |r.notifications| == |vm.notifications| + |Split(outcome.message, ',')|
      && forall i :: 0 <= i < |Split(outcome.message, ',')| ==>
           r.notifications[|vm.notifications| + i] == ErrorNote(AddErrorPrefix + Split(outcome.message, ',')[i])
  {
    var (pending, item) := StartAddToCart(vm, cartAllowed);
    if item.None? {
      return vm, None;
    }
    assert pending.addingToCart == Some(true);
    r := FinishAddToCart(pending, outcome);
    added := item;
  }
}
