// Branch administration page: the error alert built from a server
// validation payload, the branch search, the edit-form defaults and the
// normalisation applied before a branch is submitted.

module Branches {
  import opened Common

  // ---------------------------------------------------------------------
  // Error alert

  /** The value stored under one key of the error payload. */
  datatype ErrorValue = Messages(msgs: seq<string>) | NotAList

  /**
   * What the page receives as `errorMessages`: anything that is not an
   * object (or is null), or an object whose keys are listed in
   * `Object.keys` order.
   */
  datatype ErrorPayload = NotAnObject | ErrorObject(fields: seq<(string, ErrorValue)>)

  datatype Alert = Alert(title: string, html: string)

  const ErrorTitle: string := "خطأ"
  const DataErrorTitle: string := "خطأ في البيانات"
  const UnknownErrorText: string := "حدث خطأ غير معروف"

  /** The single block shown when there is nothing specific to say. */
  const GenericHtml: string :=
    "<div style=\"text-align: right; direction: rtl; margin-bottom: 8px; padding-right: 15px; position: relative; font-weight: semibold;\">\n"
    + "              <span style=\"position: absolute; right: 0; top: 0;\">-</span>\n"
    + "              " + UnknownErrorText + "\n"
    + "            </div>"

  const BlockOpen: string :=
    "\n    <div style=\"\n      direction: rtl;\n      text-align: right;\n      margin-bottom: 8px;\n"
    + "      padding-right: 15px;\n      position: relative;\n      font-weight: semibold;\n    \">\n"
    + "      <span style=\"position: absolute; right: 0; top: 0;\">-</span>\n      "
  const BlockClose: string := "\n    </div>"

  /** The HTML block rendered for one message. */
  function MessageBlock(msg: string): string { BlockOpen + msg + BlockClose }

  /** The blocks of all messages joined with the empty separator. */
  function MessagesHtml(msgs: seq<string>): string {
    if msgs == [] then "" else MessageBlock(msgs[0]) + MessagesHtml(msgs[1..])
  }

  function MessagesOf(v: ErrorValue): seq<string> {
    match v
    case Messages(msgs) => msgs
    case NotAList => []
  }

  /** Every list-valued field's messages, field after field. */
  function CollectedMessages(fields: seq<(string, ErrorValue)>): seq<string> {
    if fields == [] then [] else MessagesOf(fields[0].1) + CollectedMessages(fields[1..])
  }

  /** The nested loops that push every message into `allMessages`. */
  method CollectMessages(fields: seq<(string, ErrorValue)>) returns (allMessages: seq<string>)
    ensures allMessages == CollectedMessages(fields)
  {
    allMessages := [];
    var i := 0;
    while i < |fields|
      invariant 0 <= i <= |fields|
      invariant allMessages + CollectedMessages(fields[i..]) == CollectedMessages(fields)
    {
      var value := fields[i].1;
      CollectedStep(fields, i);
      ghost var later := CollectedMessages(fields[i + 1..]);
      assert (allMessages + MessagesOf(value)) + later == allMessages + (MessagesOf(value) + later);
      if value.Messages? {
        allMessages := PushEach(allMessages, value.msgs);
      }
      i := i + 1;
    }
  }

  /** Collecting from position `i` takes that field's messages, then the rest. */
  lemma CollectedStep(fields: seq<(string, ErrorValue)>, i: nat)
    requires i < |fields|
    ensures CollectedMessages(fields[i..]) == MessagesOf(fields[i].1) + CollectedMessages(fields[i + 1..])
  {
    assert fields[i..][1..] == fields[i + 1..];
  }

  /** The alert the spec function assigns to a payload. */
  function ErrorAlert(payload: ErrorPayload): Alert {
    if payload.NotAnObject? || CollectedMessages(payload.fields) == [] then
      Alert(ErrorTitle, GenericHtml)
    else
      Alert(DataErrorTitle, MessagesHtml(CollectedMessages(payload.fields)))
  }

  /** showErrorAlert: the alert it fires for a payload. */
  method ShowErrorAlert(payload: ErrorPayload) returns (alert: Alert)
    ensures alert == ErrorAlert(payload)
    ensures alert.title == ErrorTitle <==> payload.NotAnObject? || CollectedMessages(payload.fields) == []
  {
    if payload.NotAnObject? {
      return Alert(ErrorTitle, GenericHtml);
    }
    var allMessages := CollectMessages(payload.fields);
    if |allMessages| == 0 {
      return Alert(ErrorTitle, GenericHtml);
    }
    alert := Alert(DataErrorTitle, MessagesHtml(allMessages));
  }

  lemma {:induction false} CollectedConcat(a: seq<(string, ErrorValue)>, b: seq<(string, ErrorValue)>)
    ensures CollectedMessages(a + b) == CollectedMessages(a) + CollectedMessages(b)
  {
    if a != [] {
      assert (a + b)[1..] == a[1..] + b;
      CollectedConcat(a[1..], b);
    } else {
      assert a + b == b;
    }
  }

  /**
   * A message is collected iff it sits in the list of some field; fields
   * that do not hold a list contribute nothing.
   */
  lemma {:induction false} CollectedMembership(fields: seq<(string, ErrorValue)>, msg: string)
    ensures msg in CollectedMessages(fields) <==>
      exists k :: 0 <= k < |fields| && fields[k].1.Messages? && msg in fields[k].1.msgs
  {
    if fields != [] {
      CollectedMembership(fields[1..], msg);
      if msg in CollectedMessages(fields[1..]) {
        var k :| 0 <= k < |fields[1..]| && fields[1..][k].1.Messages? && msg in fields[1..][k].1.msgs;
        assert fields[k + 1] == fields[1..][k];
      }
      if exists k :: 0 <= k < |fields| && fields[k].1.Messages? && msg in fields[k].1.msgs {
        var k :| 0 <= k < |fields| && fields[k].1.Messages? && msg in fields[k].1.msgs;
        if k > 0 {
          assert fields[1..][k - 1] == fields[k];
        }
      }
    }
  }

  /** Fields that are not lists can be dropped without changing the messages. */
  lemma {:induction false} NonListFieldsIgnored(fields: seq<(string, ErrorValue)>)
    ensures CollectedMessages(Filter(fields, IsListField)) == CollectedMessages(fields)
  {
    if fields != [] {
      NonListFieldsIgnored(fields[1..]);
      if IsListField(fields[0]) {
        var r := Filter(fields, IsListField);
        assert r[0] == fields[0] && r[1..] == Filter(fields[1..], IsListField);
      } else {
        assert MessagesOf(fields[0].1) == [];
        assert Filter(fields, IsListField) == Filter(fields[1..], IsListField);
        assert CollectedMessages(fields) == CollectedMessages(fields[1..]);
      }
    }
  }

  predicate IsListField(f: (string, ErrorValue)) { f.1.Messages? }

  lemma {:induction false} MessagesHtmlConcat(a: seq<string>, b: seq<string>)
    ensures MessagesHtml(a + b) == MessagesHtml(a) + MessagesHtml(b)
  {
    if a != [] {
      assert (a + b)[1..] == a[1..] + b;
      MessagesHtmlConcat(a[1..], b);
    } else {
      assert a + b == b;
    }
  }

  /** Each message is wrapped in exactly one block, in collection order. */
  lemma {:induction false} MessagesHtmlBlocks(msgs: seq<string>, k: nat)
    requires k < |msgs|
    ensures MessagesHtml(msgs) == MessagesHtml(msgs[..k]) + MessageBlock(msgs[k]) + MessagesHtml(msgs[k + 1..])
  {
    assert msgs == msgs[..k] + [msgs[k]] + msgs[k + 1..];
    MessagesHtmlConcat(msgs[..k] + [msgs[k]], msgs[k + 1..]);
    MessagesHtmlConcat(msgs[..k], [msgs[k]]);
    assert MessagesHtml([msgs[k]]) == MessageBlock(msgs[k]) + MessagesHtml([]);
  }

  /** Every block has the same frame, so the HTML grows by one frame per message. */
  lemma {:induction false} MessagesHtmlLength(msgs: seq<string>)
    ensures |MessagesHtml(msgs)| == |msgs| * (|BlockOpen| + |BlockClose|) + SumOfLengths(msgs)
  {
    if msgs != [] {
      MessagesHtmlLength(msgs[1..]);
    }
  }

  function SumOfLengths(msgs: seq<string>): nat {
    if msgs == [] then 0 else |msgs[0]| + SumOfLengths(msgs[1..])
  }

  predicate HasNonEmptyList(fields: seq<(string, ErrorValue)>) {
    exists k :: 0 <= k < |fields| && fields[k].1.Messages? && fields[k].1.msgs != []
  }

  /**
   * The detailed alert is shown exactly when some field holds a non-empty
   * list; otherwise the generic text is shown.
   */
  lemma ErrorAlertSpec(payload: ErrorPayload)
    ensures var alert := ErrorAlert(payload);
      && (alert.title == DataErrorTitle <==>
            payload.ErrorObject? && HasNonEmptyList(payload.fields))
      && (alert.title != DataErrorTitle ==> alert == Alert(ErrorTitle, GenericHtml))
  {
    if payload.ErrorObject? {
      var fields := payload.fields;
      var c := CollectedMessages(fields);
      if c != [] {
        CollectedMembership(fields, c[0]);
      }
      if HasNonEmptyList(fields) {
        var k :| 0 <= k < |fields| && fields[k].1.Messages? && fields[k].1.msgs != [];
        CollectedMembership(fields, fields[k].1.msgs[0]);
      }
    }
  }

  // ---------------------------------------------------------------------
  // Branches, phones and the search

  datatype Phone = Phone(phone: Option<string>, phoneType: string, isWhatsapp: bool)

  datatype City = City(id: int, name: Option<string>)

  /** A branch as the server returns it; absent fields are `None`. */
  datatype Branch = Branch(
    id: int,
    name: Option<string>,
    email: Option<string>,
    address: Option<string>,
    locationUrl: Option<string>,
    status: Option<string>,
    openingTime: Option<string>,
    closingTime: Option<string>,
    isActive: Option<bool>,
    city: Option<City>,
    managerId: Option<string>,
    phoneNumbers: Option<seq<Phone>>)

  const MobileType: string := "Mobile"
  const LandlineType: string := "Landline"
  const OtherType: string := "Other"

  /** getPhoneTypeArabic. */
  function PhoneTypeArabic(phoneType: string): string {
    if phoneType == MobileType then "موبايل"
    else if phoneType == LandlineType then "أرضي"
    else if phoneType == OtherType then "آخر"
    else phoneType
  }

  /** The three known types get three different Arabic labels; any other type is shown as is. */
  lemma PhoneTypeLabels(phoneType: string)
    ensures phoneType !in {MobileType, LandlineType, OtherType} ==> PhoneTypeArabic(phoneType) == phoneType
    ensures phoneType in {MobileType, LandlineType, OtherType} ==>
      PhoneTypeArabic(phoneType) != phoneType && NoAsciiLetters(PhoneTypeArabic(phoneType))
    ensures PhoneTypeArabic(MobileType) != PhoneTypeArabic(LandlineType)
    ensures PhoneTypeArabic(MobileType) != PhoneTypeArabic(OtherType)
    ensures PhoneTypeArabic(LandlineType) != PhoneTypeArabic(OtherType)
  {
  }

  predicate NoAsciiLetters(s: string) {
    forall i :: 0 <= i < |s| ==> !IsAsciiLower(s[i]) && !IsAsciiUpper(s[i])
  }

  /** `field?.toLowerCase().includes(searchLower)`: an absent field never matches. */
  predicate FieldIncludes(field: Option<string>, needle: string) {
    field.Some? && Includes(ToLower(field.value), needle)
  }

  predicate AnyPhoneIncludes(phones: seq<Phone>, searchTerm: string) {
    exists i :: 0 <= i < |phones| && phones[i].phone.Some? && Includes(phones[i].phone.value, searchTerm)
  }

  /**
   * Name, address, email or city name contain the lower-cased term, ignoring
   * case, or some phone number contains the term as typed.
   */
  predicate MatchesBranch(b: Branch, searchTerm: string) {
    var needle := ToLower(searchTerm);
    FieldIncludes(b.name, needle)
    || FieldIncludes(b.address, needle)
    || FieldIncludes(b.email, needle)
    || (b.city.Some? && FieldIncludes(b.city.value.name, needle))
    || (b.phoneNumbers.Some? && AnyPhoneIncludes(b.phoneNumbers.value, searchTerm))
  }

  function BranchMatcher(searchTerm: string): Branch -> bool {
    (b: Branch) => MatchesBranch(b, searchTerm)
  }

  /** The effect that recomputes `filteredBranches`. */
  function SearchBranches(branches: seq<Branch>, searchTerm: string): seq<Branch> {
    if Trim(searchTerm) == "" then branches else Filter(branches, BranchMatcher(searchTerm))
  }

  /**
   * A blank term shows every branch; otherwise the shown branches keep the
   * list's order and are exactly those that match the term.
   */
  lemma SearchBranchesSpec(branches: seq<Branch>, searchTerm: string)
    ensures var r := SearchBranches(branches, searchTerm);
      && IsSubsequence(r, branches)
      && (AllSpace(searchTerm) ==> r == branches)
      && (!AllSpace(searchTerm) ==> forall b :: b in r <==> b in branches && MatchesBranch(b, searchTerm))
  {
    BlankIffAllSpace(searchTerm);
    if Trim(searchTerm) == "" {
      SubsequenceReflexive(branches);
    } else {
      FilterSpec(branches, BranchMatcher(searchTerm));
    }
  }

  /** Text fields are compared ignoring case, so a term in upper case finds the same branches. */
  lemma SearchIgnoresCaseOfTextFields(b: Branch, searchTerm: string)
    requires b.phoneNumbers.None?
    ensures MatchesBranch(b, searchTerm) <==> MatchesBranch(b, ToLower(searchTerm))
  {
    ToLowerIdempotent(searchTerm);
  }

  lemma {:induction false} ToLowerIdempotent(s: string)
    ensures ToLower(ToLower(s)) == ToLower(s)
  {
    if s != [] {
      ToLowerIdempotent(s[1..]);
      assert ToLower(s)[1..] == ToLower(s[1..]);
    }
  }

  // ---------------------------------------------------------------------
  // The branch form: edit defaults and the submitted payload

  /** The form state; `cityId` is `None` for the empty selection. */
  datatype BranchForm = BranchForm(
    name: string,
    email: string,
    address: string,
    locationUrl: Option<string>,
    status: string,
    openingTime: string,
    closingTime: string,
    isActive: bool,
    cityId: Option<int>,
    managerId: string,
    phoneNumbers: seq<Phone>)

  const OpenStatus: string := "Open"

  /** handleAddNewBranch's empty form. */
  const NewBranchForm: BranchForm :=
    BranchForm("", "", "", Some(""), OpenStatus, "", "", true, None, "", [])

  /** `isWhatsapp` survives only on a mobile number. */
  function NormalisePhone(p: Phone): Phone {
    Phone(p.phone, p.phoneType, if p.phoneType == MobileType then p.isWhatsapp else false)
  }

  function NormalisePhones(phones: seq<Phone>): (r: seq<Phone>)
    ensures |r| == |phones|
  {
    seq(|phones|, i requires 0 <= i < |phones| => NormalisePhone(phones[i]))
  }

  /**
   * Normalisation keeps the list's length, order, numbers and types, keeps
   * `isWhatsapp` only on mobile numbers, and changes nothing a second time.
   */
  lemma NormalisePhonesSpec(phones: seq<Phone>)
    ensures var r := NormalisePhones(phones);
      && |r| == |phones|
      && (forall i :: 0 <= i < |r| ==>
            r[i].phone == phones[i].phone && r[i].phoneType == phones[i].phoneType
            && (r[i].isWhatsapp <==> phones[i].phoneType == MobileType && phones[i].isWhatsapp))
      && NormalisePhones(r) == r
  {
  }

  /** `x || ""` for an optional string. */
  function OrEmpty(field: Option<string>): string {
    if field.Some? then field.value else ""
  }

  /** handleEdit: the form filled from a branch. */
  function EditForm(b: Branch): BranchForm {
    BranchForm(
      OrEmpty(b.name),
      OrEmpty(b.email),
      OrEmpty(b.address),
      Some(OrEmpty(b.locationUrl)),
      if b.status.Some? && b.status.value != "" then b.status.value else OpenStatus,
      OrEmpty(b.openingTime),
      OrEmpty(b.closingTime),
      if b.isActive.Some? then b.isActive.value else true,
      if b.city.Some? && b.city.value.id != 0 then Some(b.city.value.id) else None,
      OrEmpty(b.managerId),
      if b.phoneNumbers.Some? then NormalisePhones(b.phoneNumbers.value) else [])
  }

  /**
   * Missing text fields become "" and present ones are copied, a missing or
   * empty status becomes "Open", only an absent `isActive` becomes true, the
   * city's id is taken unless it is 0, and the branch's own phones are
   * copied in normal form.
   */
  lemma EditFormSpec(b: Branch)
    ensures var f := EditForm(b);
      && (b.name.None? ==> f.name == "") && (b.name.Some? ==> f.name == b.name.value)
      && (b.email.None? ==> f.email == "") && (b.email.Some? ==> f.email == b.email.value)
      && (b.address.None? ==> f.address == "") && (b.address.Some? ==> f.address == b.address.value)
      && (b.managerId.None? ==> f.managerId == "") && (b.managerId.Some? ==> f.managerId == b.managerId.value)
      && (b.openingTime.None? ==> f.openingTime == "") && (b.openingTime.Some? ==> f.openingTime == b.openingTime.value)
      && (b.closingTime.None? ==> f.closingTime == "") && (b.closingTime.Some? ==> f.closingTime == b.closingTime.value)
      && (b.locationUrl.None? ==> f.locationUrl == Some(""))
      && (b.locationUrl.Some? ==> f.locationUrl == b.locationUrl)
      && (f.status == OpenStatus <==> b.status.None? || b.status.value in {"", OpenStatus})
      && (b.status.Some? && b.status.value != "" ==> f.status == b.status.value)
      && (f.isActive <==> b.isActive.None? || b.isActive.value)
      && (f.cityId.Some? <==> b.city.Some? && b.city.value.id != 0)
      && (f.cityId.Some? ==> f.cityId.value == b.city.value.id)
      && (b.phoneNumbers.None? ==> f.phoneNumbers == [])
      && (b.phoneNumbers.Some? ==> f.phoneNumbers == NormalisePhones(b.phoneNumbers.value))
      && NormalisePhones(f.phoneNumbers) == f.phoneNumbers
  {
    if b.phoneNumbers.Some? {
      NormalisePhonesSpec(b.phoneNumbers.value);
    }
  }

  /** The payload handleSubmit sends for a form. */
  function SubmitPayload(f: BranchForm): BranchForm
    requires f.locationUrl.Some?
  {
    f.(phoneNumbers := NormalisePhones(f.phoneNumbers),
       locationUrl := if Trim(f.locationUrl.value) == "" then None else f.locationUrl)
  }

  /** handleSubmit's copy of the form, with the blank location link deleted in place. */
  method PrepareSubmit(submitData: BranchForm) returns (processedData: BranchForm)
    requires submitData.locationUrl.Some?
    ensures processedData == SubmitPayload(submitData)
  {
    processedData := submitData.(phoneNumbers := NormalisePhones(submitData.phoneNumbers));
    if Trim(processedData.locationUrl.value) == "" {
      processedData := processedData.(locationUrl := None);
    }
  }

  /**
   * The location link is dropped exactly when it is blank, the phones are
   * normalised, and every other field is sent as entered.
   */
  lemma SubmitPayloadSpec(f: BranchForm)
    requires f.locationUrl.Some?
    ensures var p := SubmitPayload(f);
      && (p.locationUrl.None? <==> AllSpace(f.locationUrl.value))
      && (p.locationUrl.Some? ==> p.locationUrl == f.locationUrl)
      && p.phoneNumbers == NormalisePhones(f.phoneNumbers)
      && p.(locationUrl := f.locationUrl, phoneNumbers := f.phoneNumbers) == f
  {
    BlankIffAllSpace(f.locationUrl.value);
  }

  /**
   * Editing a branch and submitting it unchanged sends back its phones as
   * the form shows them and keeps its location link iff the link is not blank.
   */
  lemma EditThenSubmit(b: Branch)
    ensures var p := SubmitPayload(EditForm(b));
      && p.phoneNumbers == EditForm(b).phoneNumbers
      && (p.locationUrl.Some? <==> b.locationUrl.Some? && !AllSpace(b.locationUrl.value))
  {
    EditFormSpec(b);
    SubmitPayloadSpec(EditForm(b));
  }

  /** Submitting the untouched new-branch form sends no location link and no phones. */
  lemma NewBranchSubmit()
    ensures SubmitPayload(NewBranchForm).locationUrl.None?
    ensures SubmitPayload(NewBranchForm).phoneNumbers == []
    ensures SubmitPayload(NewBranchForm).status == OpenStatus && SubmitPayload(NewBranchForm).isActive
  {
  }
}
