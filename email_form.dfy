/**
 * The email form: the fields it updates in place while it builds its
 * recipient lists and while it is submitted, and the methods that do so.
 * Every method is proved against the value-level definitions of the
 * Recipients and Delivery modules, where the properties are stated.
 */
module Msgtplsender {
  import opened Wrappers
  import opened Sequences
  import opened Php
  import opened Recipients
  import opened Delivery

  /** What a submission hands to the host's mailer. */
  datatype SendRequest = SendRequest(
    contactDetails: seq<ContactDetail>,
    subject: string,
    textMessage: string,
    htmlMessage: string,
    cc: string,
    bcc: string,
    toContactIds: seq<string>,
    additionalDetails: string)

  /** Everything a submission asks of the host, in the model's terms. */
  datatype Submission = Submission(
    templateWrites: seq<MessageTemplate>,
    request: SendRequest,
    notSent: map<string, ContactDetail>,
    caseActivities: seq<CaseActivity>)

  class EmailForm {
    /** The selected contacts (set by the host before the form is built). */
    var contactIds: seq<string>
    var toContactIds: seq<string>
    var ccContactIds: seq<string>
    var bccContactIds: seq<string>
    /** Every selected contact: the original selection and the to, cc and bcc contacts. */
    var allContactIds: seq<string>
    /** The emails of the to tokens, at the positions of their contacts. */
    var toContactEmails: seq<string>
    /** The details of the contacts that will be emailed. */
    var contactDetails: map<string, ContactDetail>
    /** The details of every selected contact, before suppression. */
    var allContactDetails: map<string, ContactDetail>
    var toContactDetails: map<string, ContactDetail>
    /** Whether the form emails one specific contact. */
    var single: bool
    /** The specific address asked for by email id, if any. */
    var toEmail: Option<Address>
    /** The case id(s) of the request, if any. */
    var caseId: Option<string>

    constructor (contactIds: seq<string>, toEmail: Option<Address>, caseId: Option<string>)
      requires toEmail.Some? ==> Truthy(toEmail.value.contactId) && Truthy(toEmail.value.email)
      ensures this.contactIds == contactIds && this.toEmail == toEmail && this.caseId == caseId
      ensures toContactIds == [] && ccContactIds == [] && bccContactIds == [] && allContactIds == []
      ensures toContactEmails == [] && single
      ensures contactDetails == map[] && allContactDetails == map[] && toContactDetails == map[]
    {
      this.contactIds := contactIds;
      this.toEmail := toEmail;
      this.caseId := caseId;
      toContactIds, ccContactIds, bccContactIds, allContactIds := [], [], [], [];
      toContactEmails := [];
      single := true;
      contactDetails, allContactDetails, toContactDetails := map[], map[], map[];
    }

    function Lists(): FieldIds
      reads this
    {
      FieldIds(toContactIds, ccContactIds, bccContactIds)
    }

    /** The contact ids and emails of a field's tokens whose contact id is truthy, in order. */
    static method FieldTokens(value: string) returns (ids: seq<string>, emails: seq<string>)
      ensures ids == Ids(Parsed(Explode(",", value)))
      ensures emails == Emails(Parsed(Explode(",", value)))
    {
      var tokens := Explode(",", value);
      ids, emails := [], [];
      var i := 0;
      while i < |tokens|
        invariant 0 <= i <= |tokens|
        invariant ids == Ids(Parsed(tokens[..i])) && emails == Emails(Parsed(tokens[..i]))
      {
        var a := ParseToken(tokens[i]);
        assert tokens[..i + 1] == tokens[..i] + [tokens[i]];
        ParsedSnoc(tokens[..i], tokens[i]);
        ghost var more := if Truthy(a.contactId) then [a] else [];
        IdsEmailsSnoc(Parsed(tokens[..i]), more);
        if Truthy(a.contactId) {
          assert Ids(more) == [a.contactId] && Emails(more) == [a.email];
          ids := ids + [a.contactId];
          emails := emails + [a.email];
        } else {
          assert Ids(more) == [] && Emails(more) == [];
        }
        i := i + 1;
      }
      assert tokens[..|tokens|] == tokens;
    }

    /**
     * One recipient field: a truthy value is split into tokens, and each
     * token with a truthy contact id adds that contact to the field's list
     * and to every selected contact; the to field first resets the to list
     * and the selection and records each token's email.
     */
    method ParseField(field: Field, value: string) returns (present: bool)
      modifies this
      ensures present == Truthy(value)
      ensures allContactIds == old(allContactIds) + Ids(FieldAddresses(value))
      ensures field == To && present ==> contactIds == Ids(FieldAddresses(value)) && toContactIds == contactIds
      ensures !(field == To && present) ==> contactIds == old(contactIds) && toContactIds == old(toContactIds)
      ensures toContactEmails == if field == To then old(toContactEmails) + Emails(FieldAddresses(value)) else old(toContactEmails)
      ensures ccContactIds == if field == Cc then old(ccContactIds) + Ids(FieldAddresses(value)) else old(ccContactIds)
      ensures bccContactIds == if field == Bcc then old(bccContactIds) + Ids(FieldAddresses(value)) else old(bccContactIds)
      ensures contactDetails == old(contactDetails) && allContactDetails == old(allContactDetails)
      ensures toContactDetails == old(toContactDetails) && single == old(single)
      ensures toEmail == old(toEmail) && caseId == old(caseId)
    {
      present := Truthy(value);
      if !present {
        assert Ids(FieldAddresses(value)) == [] && Emails(FieldAddresses(value)) == [];
        return;
      }
      var ids, emails := FieldTokens(value);
      match field {
        case To =>
          contactIds := ids;
          toContactIds := ids;
          toContactEmails := toContactEmails + emails;
        case Cc =>
          ccContactIds := ccContactIds + ids;
        case Bcc =>
          bccContactIds := bccContactIds + ids;
      }
      allContactIds := allContactIds + ids;
    }

    /**
     * Checks every distinct selected contact against the suppression rules:
     * a suppressed contact is counted and its details unset; any other is
     * shown in the to, cc or bcc list, in that order of precedence, the to
     * entry using the specifically requested address of its contact.
     */
    method ValidateRecipients(details: map<string, ContactDetail>) returns (view: RecipientView)
      modifies this
      ensures allContactDetails == details
      ensures contactDetails == Kept(details, allContactIds)
      ensures toContactDetails == old(toContactDetails) + ToDetails(Unique(allContactIds), details, Lists())
      ensures view == View(Unique(allContactIds), details, Lists(), toEmail)
      ensures contactIds == old(contactIds) && allContactIds == old(allContactIds)
      ensures Lists() == old(Lists()) && toContactEmails == old(toContactEmails)
      ensures single == old(single) && toEmail == old(toEmail) && caseId == old(caseId)
    {
      var uniq := Unique(allContactIds);
      UniqueNoDuplicates(allContactIds);
      var kept, toDetails;
      view, kept, toDetails := Classify(uniq, details, Lists(), toEmail);
      UniqueSameElements(allContactIds);
      assert SuppressedIds(uniq, details) == SuppressedIds(allContactIds, details);
      allContactDetails := details;
      contactDetails := kept;
      toContactDetails := toContactDetails + toDetails;
    }

    /**
     * The loop of the suppression check over a list without repeats:
     * the view it builds, the details left once the suppressed contacts are
     * unset, and the details of the contacts shown in the to list.
     */
    static method Classify(uniq: seq<string>, details: map<string, ContactDetail>, ids: FieldIds, toEmail: Option<Address>)
      returns (view: RecipientView, kept: map<string, ContactDetail>, toDetails: map<string, ContactDetail>)
      requires NoDuplicates(uniq)
      ensures view == View(uniq, details, ids, toEmail)
      ensures kept == Kept(details, uniq)
      ensures toDetails == ToDetails(uniq, details, ids)
    {
      kept := details;
      toDetails := map[];
      var toArray, ccArray, bccArray := [], [], [];
      var suppressedEmails := 0;
      var i := 0;
      while i < |uniq|
        invariant 0 <= i <= |uniq|
        invariant kept == Kept(details, uniq[..i])
        invariant RecipientView(toArray, ccArray, bccArray, suppressedEmails) == View(uniq[..i], details, ids, toEmail)
        invariant toDetails == ToDetails(uniq[..i], details, ids)
      {
        var c := uniq[i];
        assert uniq[..i + 1] == uniq[..i] + [c];
        KeptSnoc(uniq, i, details);
        ViewSnoc(uniq[..i], c, details, ids, toEmail);
        ToDetailsSnoc(uniq[..i], c, details, ids);
        if Suppressed(kept, c) {
          suppressedEmails := suppressedEmails + 1;
          kept := kept - {c};
        } else {
          var d := kept[c];
          if c in ids.to {
            toDetails := toDetails[c := d];
            var email := d.email;
            if toEmail.Some? && toEmail.value.contactId == c {
              email := toEmail.value.email;
            }
            toArray := toArray + [MakeEntry(c, d.sortName, email)];
          } else if c in ids.cc {
            ccArray := ccArray + [MakeEntry(c, d.sortName, d.email)];
          } else if c in ids.bcc {
            bccArray := bccArray + [MakeEntry(c, d.sortName, d.email)];
          }
        }
        i := i + 1;
      }
      assert uniq[..|uniq|] == uniq;
      view := RecipientView(toArray, ccArray, bccArray, suppressedEmails);
    }

    /** The details of the next contact of a list without repeats are still those read from the host. */
    static lemma KeptSnoc(uniq: seq<string>, i: nat, details: map<string, ContactDetail>)
      requires NoDuplicates(uniq) && i < |uniq|
      ensures var c := uniq[i]; var kept := Kept(details, uniq[..i]);
        && (c in kept <==> c in details)
        && (c in details ==> kept[c] == details[c])
        && Kept(details, uniq[..i + 1]) == if Suppressed(details, c) then kept - {c} else kept
    {
      var c := uniq[i];
      assert uniq[..i + 1] == uniq[..i] + [c];
      assert c !in uniq[..i];
      SuppressedSnoc(uniq[..i], c, details);
    }

    /**
     * The selection of the form: the request's contact ids (when given)
     * and the three recipient fields. `present` tells whether any field
     * had a value.
     */
    method SelectRecipients(cid: string, to: string, cc: string, bcc: string) returns (present: bool)
      modifies this
      ensures present == (Truthy(to) || Truthy(cc) || Truthy(bcc))
      ensures var selected := if Truthy(cid) then Explode(",", cid) else old(contactIds);
        && single == (old(single) && |selected| <= 1)
        && contactIds == (if Truthy(to) then Ids(FieldAddresses(to)) else selected)
        && toContactIds == (if Truthy(to) then Ids(FieldAddresses(to)) else selected)
        && allContactIds == selected + Ids(FieldAddresses(to)) + Ids(FieldAddresses(cc)) + Ids(FieldAddresses(bcc))
      ensures ccContactIds == old(ccContactIds) + Ids(FieldAddresses(cc))
      ensures bccContactIds == old(bccContactIds) + Ids(FieldAddresses(bcc))
      ensures toContactEmails == old(toContactEmails) + Emails(FieldAddresses(to))
      ensures contactDetails == old(contactDetails) && allContactDetails == old(allContactDetails)
      ensures toContactDetails == old(toContactDetails)
      ensures toEmail == old(toEmail) && caseId == old(caseId)
    {
      if Truthy(cid) {
        contactIds := Explode(",", cid);
      }
      if |contactIds| > 1 {
        single := false;
      }
      allContactIds := contactIds;
      toContactIds := contactIds;
      var inTo := ParseField(To, to);
      var inCc := ParseField(Cc, cc);
      var inBcc := ParseField(Bcc, bcc);
      present := inTo || inCc || inBcc;
    }

    /**
     * Builds the recipient part of the form: the selection, the contacts of
     * the activity the form replies to (when there is one), and (unless the
     * form is standalone with all fields empty) the suppression check on the
     * details the host holds for every selected contact. `bounced` is the
     * error bounce the form takes when no to entry survives.
     */
    method BuildRecipients(cid: string, to: string, cc: string, bcc: string, standalone: bool,
                           activityContacts: Option<seq<string>>, directory: map<string, ContactDetail>)
      returns (view: RecipientView, bounced: bool)
      modifies this
      ensures var selected := if Truthy(cid) then Explode(",", cid) else old(contactIds);
        && single == (old(single) && |selected| <= 1)
        && toContactIds == (if Truthy(to) then Ids(FieldAddresses(to)) else selected)
        && contactIds == (if activityContacts.Some? then activityContacts.value
                          else if Truthy(to) then Ids(FieldAddresses(to)) else selected)
        && allContactIds == (if activityContacts.Some? then activityContacts.value
                             else selected + Ids(FieldAddresses(to)) + Ids(FieldAddresses(cc)) + Ids(FieldAddresses(bcc)))
      ensures ccContactIds == old(ccContactIds) + Ids(FieldAddresses(cc))
      ensures bccContactIds == old(bccContactIds) + Ids(FieldAddresses(bcc))
      ensures toContactEmails == old(toContactEmails) + Emails(FieldAddresses(to))
      ensures var checked := !standalone || Truthy(to) || Truthy(cc) || Truthy(bcc);
        var details := TokenDetails(directory, allContactIds);
        && (checked ==>
              && allContactDetails == details
              && contactDetails == Kept(details, allContactIds)
              && toContactDetails == old(toContactDetails) + ToDetails(Unique(allContactIds), details, Lists())
              && view == View(Unique(allContactIds), details, Lists(), toEmail)
              && bounced == (view.toContact == []))
        && (!checked ==>
              && allContactDetails == old(allContactDetails)
              && contactDetails == old(contactDetails)
              && toContactDetails == old(toContactDetails)
              && view == RecipientView([], [], [], 0)
              && !bounced)
      ensures toEmail == old(toEmail) && caseId == old(caseId)
    {
      var present := SelectRecipients(cid, to, cc, bcc);
      var setDefaults := !standalone || present;
      if activityContacts.Some? {
        allContactIds := activityContacts.value;
        contactIds := activityContacts.value;
      }
      view := RecipientView([], [], [], 0);
      bounced := false;
      if setDefaults {
        view := ValidateRecipients(TokenDetails(directory, allContactIds));
        bounced := view.toContact == [];
      }
    }

    /**
     * The pre-send de-duplication: one formatted detail per distinct
     * `contactId::email` key over the selected contacts that still have
     * details, taking the email at the contact's position and dropping the
     * email id. `tempEmails` is the list of keys seen.
     */
    method FormatContactDetails() returns (formatted: seq<ContactDetail>, tempEmails: seq<string>)
      ensures var cs := Dedup(Candidates(contactIds, toContactEmails, contactDetails));
        formatted == FormattedDetails(cs) && tempEmails == Keys(cs)
      ensures |formatted| == |tempEmails|
      ensures NoDuplicates(tempEmails)
      ensures forall k :: 0 <= k < |contactIds| && contactIds[k] in contactDetails ==>
        FormatToken(Address(contactIds[k], EmailAt(toContactEmails, k))) in tempEmails
      ensures forall i :: 0 <= i < |formatted| ==> formatted[i].emailId == None
    {
      var ids, emails, details := contactIds, toContactEmails, contactDetails;
      formatted := [];
      tempEmails := [];
      var key := 0;
      while key < |ids|
        invariant 0 <= key <= |ids|
        invariant var cs := Dedup(Candidates(ids[..key], emails, details));
          formatted == FormattedDetails(cs) && tempEmails == Keys(cs)
      {
        var contactId := ids[key];
        ghost var cs := Candidates(ids[..key], emails, details);
        assert ids[..key + 1] == ids[..key] + [contactId];
        CandidatesSnoc(ids[..key], contactId, emails, details);
        if contactId in details {
          var email := EmailAt(emails, key);
          var emailKey := contactId + "::" + email;
          ghost var c := Candidate(contactId, email, FormatDetail(details[contactId], email));
          assert Key(c) == emailKey;
          assert Candidates(ids[..key + 1], emails, details) == cs + [c];
          DedupStep(cs, c);
          if emailKey !in tempEmails {
            tempEmails := tempEmails + [emailKey];
            var d := details[contactId];
            d := d.(email := email, emailId := None);
            assert d == c.detail;
            formatted := formatted + [d];
            assert formatted == FormattedDetails(Dedup(cs + [c]));
            assert tempEmails == Keys(Dedup(cs + [c]));
          } else {
            assert formatted == FormattedDetails(Dedup(cs + [c]));
            assert tempEmails == Keys(Dedup(cs + [c]));
          }
        } else {
          assert Candidates(ids[..key + 1], emails, details) == cs;
        }
        key := key + 1;
      }
      assert ids[..|ids|] == ids;
      DedupSpec(ids, emails, details);
    }

    /** The copy addresses and contact links of one cc or bcc field, one per token. */
    method CopyField(value: string, contactUrl: string -> string) returns (emails: seq<string>, links: seq<string>)
      ensures emails == CopyAddresses(Explode(",", value), contactDetails)
      ensures links == CopyLinks(Explode(",", value), contactDetails, contactUrl)
    {
      var tokens := Explode(",", value);
      emails, links := [], [];
      var i := 0;
      while i < |tokens|
        invariant 0 <= i <= |tokens|
        invariant emails == CopyAddresses(tokens[..i], contactDetails)
        invariant links == CopyLinks(tokens[..i], contactDetails, contactUrl)
      {
        var a := ParseToken(tokens[i]);
        emails := emails + ["\"" + SortNameOf(contactDetails, a.contactId) + "\" <" + a.email + ">"];
        links := links + ["<a href='" + contactUrl(a.contactId) + "'>" + DisplayNameOf(contactDetails, a.contactId) + "</a>"];
        i := i + 1;
      }
      assert tokens[..|tokens|] == tokens;
    }

    /** The cc and bcc lines of a submission and the activity details that list those contacts. */
    method CopyLines(ccValue: string, bccValue: string, contactUrl: string -> string)
      returns (cc: string, bcc: string, additionalDetails: string)
      ensures cc == CopyLine(ccValue, contactDetails)
      ensures bcc == CopyLine(bccValue, contactDetails)
      ensures additionalDetails == CopyDetails(ccValue, bccValue, contactDetails, contactUrl)
    {
      cc, bcc, additionalDetails := "", "", "";
      var ccDetails, bccDetails := "", "";
      if Truthy(ccValue) {
        var emails, links := CopyField(ccValue, contactUrl);
        cc := Implode(",", emails);
        ccDetails := "\ncc : " + Implode(", ", links);
      }
      if Truthy(bccValue) {
        var emails, links := CopyField(bccValue, contactUrl);
        bcc := Implode(",", emails);
        bccDetails := "\nbcc : " + Implode(", ", links);
      }
      additionalDetails := ccDetails + bccDetails;
    }

    /** One case activity record for each numeric entry of the request's case ids, in order. */
    method RecordCaseActivities(activityId: string) returns (calls: seq<CaseActivity>)
      ensures caseId.None? ==> calls == []
      ensures caseId.Some? ==> calls == CaseActivities(activityId, NumericIds(Explode(",", caseId.value)))
      ensures forall i :: 0 <= i < |calls| ==> calls[i].activityId == activityId && IsNumeric(calls[i].caseId)
    {
      calls := [];
      if caseId.Some? {
        calls := CaseRecords(activityId, Explode(",", caseId.value));
        NumericIdsAreNumeric(Explode(",", caseId.value));
      }
    }

    /** The loop over the case ids: a record for each numeric one, in order. */
    static method CaseRecords(activityId: string, cases: seq<string>) returns (calls: seq<CaseActivity>)
      ensures calls == CaseActivities(activityId, NumericIds(cases))
    {
      calls := [];
      var i := 0;
      while i < |cases|
        invariant 0 <= i <= |cases|
        invariant calls == CaseActivities(activityId, NumericIds(cases[..i]))
      {
        var val := cases[i];
        ghost var prefix := cases[..i];
        assert cases[..i + 1] == prefix + [val];
        CaseActivitiesSnoc(activityId, prefix, val);
        if IsNumeric(val) {
          calls := calls + [CaseActivity(activityId, val)];
        }
        assert calls == CaseActivities(activityId, NumericIds(prefix + [val]));
        i := i + 1;
      }
      assert cases[..|cases|] == cases;
    }

    /**
     * Submits the form: writes the templates asked for, narrows the
     * recipients to the chosen contact, builds the request for the mailer,
     * works out who is not emailed and records the case activities.
     * `cidContact` and `activityId` stand for the host's answers.
     */
    method Submit(fv: FormValues, cid: string, cidContact: ContactDetail, activityId: string,
                  contactUrl: string -> string) returns (s: Submission)
      modifies this
      ensures contactIds == [cid] && toContactIds == [cid] && allContactIds == [cid]
      ensures toContactDetails == map[cid := cidContact]
      ensures ccContactIds == old(ccContactIds) && bccContactIds == old(bccContactIds)
      ensures toContactEmails == old(toContactEmails) && single == old(single)
      ensures contactDetails == old(contactDetails) && allContactDetails == old(allContactDetails)
      ensures toEmail == old(toEmail) && caseId == old(caseId)
      ensures s.templateWrites == SaveMessageTemplate(fv)
      ensures s.request == SendRequest(
        FormattedDetails(Dedup(Candidates([cid], toContactEmails, contactDetails))),
        fv.subject, fv.textMessage, fv.htmlMessage,
        CopyLine(fv.ccId, contactDetails), CopyLine(fv.bccId, contactDetails),
        [cid],
        CopyDetails(fv.ccId, fv.bccId, contactDetails, contactUrl))
      ensures s.notSent == NotSent(allContactDetails, contactDetails)
      ensures caseId.None? ==> s.caseActivities == []
      ensures caseId.Some? ==> s.caseActivities == CaseActivities(activityId, NumericIds(Explode(",", caseId.value)))
    {
      var writes := SaveMessageTemplate(fv);
      Narrow(cid, cidContact);
      s := Dispatch(fv, activityId, contactUrl);
      s := s.(templateWrites := writes);
    }

    /** Narrows the recipients to the chosen contact, whose details the host returns as `cidContact`. */
    method Narrow(cid: string, cidContact: ContactDetail)
      modifies this
      ensures contactIds == [cid] && toContactIds == [cid] && allContactIds == [cid]
      ensures toContactDetails == map[cid := cidContact]
      ensures ccContactIds == old(ccContactIds) && bccContactIds == old(bccContactIds)
      ensures toContactEmails == old(toContactEmails) && single == old(single)
      ensures contactDetails == old(contactDetails) && allContactDetails == old(allContactDetails)
      ensures toEmail == old(toEmail) && caseId == old(caseId)
    {
      contactIds, toContactIds, allContactIds := [cid], [cid], [cid];
      toContactDetails := map[cid := cidContact];
    }

    /**
     * What a submission asks of the host once the recipients are narrowed:
     * the send request, the contacts not emailed and the case records.
     * The template writes are left empty here and filled in by Submit.
     */
    method Dispatch(fv: FormValues, activityId: string, contactUrl: string -> string) returns (s: Submission)
      ensures s.templateWrites == []
      ensures s.request == SendRequest(
        FormattedDetails(Dedup(Candidates(contactIds, toContactEmails, contactDetails))),
        fv.subject, fv.textMessage, fv.htmlMessage,
        CopyLine(fv.ccId, contactDetails), CopyLine(fv.bccId, contactDetails),
        toContactIds,
        CopyDetails(fv.ccId, fv.bccId, contactDetails, contactUrl))
      ensures s.notSent == NotSent(allContactDetails, contactDetails)
      ensures caseId.None? ==> s.caseActivities == []
      ensures caseId.Some? ==> s.caseActivities == CaseActivities(activityId, NumericIds(Explode(",", caseId.value)))
    {
      var cc, bcc, additionalDetails := CopyLines(fv.ccId, fv.bccId, contactUrl);
      var formatted, _ := FormatContactDetails();
      var request := SendRequest(formatted, fv.subject, fv.textMessage, fv.htmlMessage, cc, bcc,
                                 toContactIds, additionalDetails);
      var notSent := NotSent(allContactDetails, contactDetails);
      var cases := RecordCaseActivities(activityId);
      s := Submission([], request, notSent, cases);
    }
  }
}
