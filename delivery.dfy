/**
 * What the form hands to the host when it is submitted, as values: the
 * de-duplicated recipient details, the cc and bcc address lines, the set of
 * contacts that get no email, the case activity records and the message
 * template writes.
 */
module Delivery {
  import opened Wrappers
  import opened Sequences
  import opened Php
  import opened Recipients

  // ---------------------------------------------------------------------------
  // Pre-send de-duplication
  // ---------------------------------------------------------------------------

  /** A contact detail as handed to the mailer: the chosen email, and no email id. */
  function FormatDetail(d: ContactDetail, email: string): ContactDetail
  {
    d.(email := email, emailId := None)
  }

  /** A recipient position that has details: its contact, the email at that position and the formatted detail. */
  datatype Candidate = Candidate(contactId: string, email: string, detail: ContactDetail)

  /** The `contactId::email` key two recipients are duplicates by. */
  function Key(c: Candidate): string
  {
    FormatToken(Address(c.contactId, c.email))
  }

  /** `$form->_toContactEmails[$key]`; a missing position is null, read as "". */
  function EmailAt(emails: seq<string>, k: nat): string
  {
    if k < |emails| then emails[k] else ""
  }

  function CandidateAt(ids: seq<string>, emails: seq<string>, details: map<string, ContactDetail>, k: nat): Candidate
    requires k < |ids| && ids[k] in details
  {
    Candidate(ids[k], EmailAt(emails, k), FormatDetail(details[ids[k]], EmailAt(emails, k)))
  }

  /** One candidate for every position of `ids` whose contact still has details, in order. */
  function Candidates(ids: seq<string>, emails: seq<string>, details: map<string, ContactDetail>): (r: seq<Candidate>)
  {
    if |ids| == 0 then []
    else
      var k := |ids| - 1;
      Candidates(ids[..k], emails, details) + (if ids[k] in details then [CandidateAt(ids, emails, details, k)] else [])
  }

  function Keys(cs: seq<Candidate>): seq<string>
  {
    seq(|cs|, i requires 0 <= i < |cs| => Key(cs[i]))
  }

  function FormattedDetails(cs: seq<Candidate>): seq<ContactDetail>
  {
    seq(|cs|, i requires 0 <= i < |cs| => cs[i].detail)
  }

  /** The first candidate for each key, in order. */
  function Dedup(cs: seq<Candidate>): seq<Candidate>
  {
    Pick(cs, FirstPositions(Keys(cs)))
  }

  lemma KeysSnoc(cs: seq<Candidate>, c: Candidate)
    ensures Keys(cs + [c]) == Keys(cs) + [Key(c)]
  {
  }

  /** De-duplication grows exactly by the candidates whose key is new. */
  lemma DedupSnoc(cs: seq<Candidate>, c: Candidate)
    ensures Dedup(cs + [c]) == if Key(c) in Keys(cs) then Dedup(cs) else Dedup(cs) + [c]
  {
    KeysSnoc(cs, c);
    FirstPositionsSnoc(Keys(cs), Key(c));
    PickSnoc(cs, c, FirstPositions(Keys(cs)));
  }

  /** Seen from the keys collected so far: a candidate with an unseen key is appended, any other is skipped. */
  lemma DedupStep(cs: seq<Candidate>, c: Candidate)
    ensures var seen := Keys(Dedup(cs));
      && (Key(c) in seen ==> Keys(Dedup(cs + [c])) == seen && FormattedDetails(Dedup(cs + [c])) == FormattedDetails(Dedup(cs)))
      && (Key(c) !in seen ==> Keys(Dedup(cs + [c])) == seen + [Key(c)] &&
                              FormattedDetails(Dedup(cs + [c])) == FormattedDetails(Dedup(cs)) + [c.detail])
  {
    DedupSnoc(cs, c);
    KeysOfDedup(cs);
    UniqueSameElements(Keys(cs));
    KeysSnoc(Dedup(cs), c);
    FormattedDetailsSnoc(Dedup(cs), c);
  }

  lemma FormattedDetailsSnoc(cs: seq<Candidate>, c: Candidate)
    ensures FormattedDetails(cs + [c]) == FormattedDetails(cs) + [c.detail]
  {
  }

  lemma CandidatesSnoc(ids: seq<string>, id: string, emails: seq<string>, details: map<string, ContactDetail>)
    ensures Candidates(ids + [id], emails, details) ==
      Candidates(ids, emails, details) +
        (if id in details then [Candidate(id, EmailAt(emails, |ids|), FormatDetail(details[id], EmailAt(emails, |ids|)))] else [])
  {
    assert (ids + [id])[..|ids|] == ids;
  }

  lemma KeysOfDedup(cs: seq<Candidate>)
    ensures Keys(Dedup(cs)) == Unique(Keys(cs))
  {
  }

  /** A candidate is there exactly for each position whose contact has details. */
  lemma {:induction false} CandidatesMembership(ids: seq<string>, emails: seq<string>, details: map<string, ContactDetail>, c: Candidate)
    ensures c in Candidates(ids, emails, details) <==>
      exists k :: 0 <= k < |ids| && ids[k] in details && c == CandidateAt(ids, emails, details, k)
  {
    if |ids| > 0 {
      var n := |ids| - 1;
      CandidatesMembership(ids[..n], emails, details, c);
      forall k | 0 <= k < n && ids[k] in details ensures CandidateAt(ids[..n], emails, details, k) == CandidateAt(ids, emails, details, k) {
      }
      if exists k :: 0 <= k < |ids| && ids[k] in details && c == CandidateAt(ids, emails, details, k) {
        var k :| 0 <= k < |ids| && ids[k] in details && c == CandidateAt(ids, emails, details, k);
        if k < n {
          assert c == CandidateAt(ids[..n], emails, details, k);
        }
      }
    }
  }

  /**
   * What the pre-send de-duplication promises: no two recipients share a
   * `contactId::email` key; every position of `ids` that has details is
   * represented by its key; every recipient is one of the candidates (so,
   * by CandidatesMembership, comes from a position with details), carries
   * the email of that position and no email id; and the
   * recipients are the first occurrences of their keys, in order.
   */
  lemma DedupSpec(ids: seq<string>, emails: seq<string>, details: map<string, ContactDetail>)
    ensures var cs := Candidates(ids, emails, details);
      NoDuplicates(Keys(Dedup(cs)))
    ensures var cs := Candidates(ids, emails, details);
      forall k :: 0 <= k < |ids| && ids[k] in details ==>
        FormatToken(Address(ids[k], EmailAt(emails, k))) in Keys(Dedup(cs))
    ensures var cs := Candidates(ids, emails, details);
      forall i :: 0 <= i < |Dedup(cs)| ==> Dedup(cs)[i] in cs
    ensures var cs := Candidates(ids, emails, details);
      forall i :: 0 <= i < |Dedup(cs)| ==>
        Dedup(cs)[i].detail.email == Dedup(cs)[i].email && Dedup(cs)[i].detail.emailId == None
    ensures var cs := Candidates(ids, emails, details); var ps := FirstPositions(Keys(cs));
      StrictlyIncreasing(ps) && Dedup(cs) == Pick(cs, ps) &&
      forall j :: 0 <= j < |cs| ==> (j in ps <==> Key(cs[j]) !in Keys(cs)[..j])
  {
    var cs := Candidates(ids, emails, details);
    var r := Dedup(cs);
    KeysOfDedup(cs);
    UniqueNoDuplicates(Keys(cs));
    UniqueSameElements(Keys(cs));
    forall k | 0 <= k < |ids| && ids[k] in details
      ensures FormatToken(Address(ids[k], EmailAt(emails, k))) in Keys(r)
    {
      var c := CandidateAt(ids, emails, details, k);
      CandidatesMembership(ids, emails, details, c);
      var j :| 0 <= j < |cs| && cs[j] == c;
      assert Keys(cs)[j] == Key(c);
    }
    forall i | 0 <= i < |r|
      ensures r[i] in cs
      ensures r[i].detail.email == r[i].email && r[i].detail.emailId == None
    {
      var ps := FirstPositions(Keys(cs));
      assert r[i] == cs[ps[i]];
      CandidatesMembership(ids, emails, details, r[i]);
    }
    var ps := FirstPositions(Keys(cs));
    forall j | 0 <= j < |cs| ensures (j in ps <==> Key(cs[j]) !in Keys(cs)[..j]) {
      FirstPositionsCharacterized(Keys(cs), j);
    }
  }

  // ---------------------------------------------------------------------------
  // The cc and bcc address lines
  // ---------------------------------------------------------------------------

  /** `$form->_contactDetails[$contactId]['sort_name']`; null, read as "", for a contact without details. */
  function SortNameOf(details: map<string, ContactDetail>, c: string): string
  {
    if c in details then details[c].sortName else ""
  }

  function DisplayNameOf(details: map<string, ContactDetail>, c: string): string
  {
    if c in details then details[c].displayName else ""
  }

  /** The address a cc or bcc token is copied to: `"sort name" <email>`. */
  function CopyAddress(a: Address, details: map<string, ContactDetail>): string
  {
    "\"" + SortNameOf(details, a.contactId) + "\" <" + a.email + ">"
  }

  /** The link to the contact appended to the activity details; `contactUrl` is the host's URL builder. */
  function CopyLink(a: Address, details: map<string, ContactDetail>, contactUrl: string -> string): string
  {
    "<a href='" + contactUrl(a.contactId) + "'>" + DisplayNameOf(details, a.contactId) + "</a>"
  }

  /** The cc or bcc line handed to the mailer: the copy addresses joined by commas; "" for a falsy field. */
  function CopyLine(value: string, details: map<string, ContactDetail>): string
  {
    if Truthy(value) then Implode(",", CopyAddresses(Explode(",", value), details)) else ""
  }

  /** The text appended to the activity details for the cc and bcc fields; "" stands for PHP's null. */
  function CopyDetails(ccValue: string, bccValue: string, details: map<string, ContactDetail>, contactUrl: string -> string): string
  {
    (if Truthy(ccValue) then "\ncc : " + Implode(", ", CopyLinks(Explode(",", ccValue), details, contactUrl)) else "") +
    (if Truthy(bccValue) then "\nbcc : " + Implode(", ", CopyLinks(Explode(",", bccValue), details, contactUrl)) else "")
  }

  function CopyAddresses(tokens: seq<string>, details: map<string, ContactDetail>): seq<string>
  {
    seq(|tokens|, i requires 0 <= i < |tokens| => CopyAddress(ParseToken(tokens[i]), details))
  }

  function CopyLinks(tokens: seq<string>, details: map<string, ContactDetail>, contactUrl: string -> string): seq<string>
  {
    seq(|tokens|, i requires 0 <= i < |tokens| => CopyLink(ParseToken(tokens[i]), details, contactUrl))
  }

  /**
   * An entry the form showed in its cc or bcc list is copied at submit time
   * to exactly the address text it was shown with.
   */
  lemma CopyOfShownEntry(c: string, details: map<string, ContactDetail>)
    requires c in details && Avoids(c, ":") && Avoids(details[c].email, ":")
    ensures var e := MakeEntry(c, details[c].sortName, details[c].email);
      CopyAddress(ParseToken(e.id), details) == e.text
  {
    EntryIdRoundTrip(c, details[c].sortName, details[c].email);
  }

  /**
   * The cc or bcc line of a field listing well-formed addresses is their
   * copy addresses joined by commas, one per address and in order; a field
   * listing none gives the empty line.
   */
  lemma CopyLineOfField(addrs: seq<Address>, details: map<string, ContactDetail>)
    requires forall i :: 0 <= i < |addrs| ==> WellFormed(addrs[i])
    ensures CopyLine(FormatField(addrs), details) ==
      Implode(",", seq(|addrs|, i requires 0 <= i < |addrs| => CopyAddress(addrs[i], details)))
  {
    var texts := seq(|addrs|, i requires 0 <= i < |addrs| => CopyAddress(addrs[i], details));
    var tokens := FormatTokens(addrs);
    if |addrs| == 0 {
      assert FormatField(addrs) == "";
    } else {
      forall i | 0 <= i < |tokens| ensures Avoids(tokens[i], ",") {
        assert tokens[i] == addrs[i].contactId + "::" + addrs[i].email;
      }
      ExplodeImplode(",", tokens);
      assert |tokens[0]| >= 2;
      assert |FormatField(addrs)| >= |tokens[0]|;
      assert Truthy(FormatField(addrs));
      forall i | 0 <= i < |tokens| ensures CopyAddresses(tokens, details)[i] == texts[i] {
        ParseFormatToken(addrs[i]);
      }
      assert CopyAddresses(tokens, details) == texts;
    }
  }

  /** Every token of a copy field yields one address, whether or not its contact was suppressed. */
  lemma CopiesKeepSuppressed(a: Address, details: map<string, ContactDetail>)
    requires a.contactId !in details
    ensures CopyAddress(a, details) == "\"\" <" + a.email + ">"
  {
  }

  // ---------------------------------------------------------------------------
  // The contacts that are not emailed
  // ---------------------------------------------------------------------------

  /**
   * `array_diff_assoc($all, $kept)` on arrays of arrays: the values compare
   * as the string "Array", so an entry is kept exactly when its key is
   * missing from `kept`.
   */
  function NotSent(all: map<string, ContactDetail>, kept: map<string, ContactDetail>): map<string, ContactDetail>
  {
    map c | c in all && c !in kept :: all[c]
  }

  lemma SubsetCard<T>(a: set<T>, b: set<T>)
    requires a <= b
    ensures |a| <= |b|
  {
    assert b == a + (b - a);
  }

  /**
   * The not-sent set consists of exactly the suppressed contacts the host
   * had details for, with those details; it is never larger than the
   * suppressed counter, and equal to it when every contact had details.
   */
  lemma NotSentAreSuppressed(details: map<string, ContactDetail>, ids: seq<string>)
    ensures NotSent(details, Kept(details, ids)).Keys == SuppressedIds(ids, details) * details.Keys
    ensures forall c :: c in NotSent(details, Kept(details, ids)) ==> NotSent(details, Kept(details, ids))[c] == details[c]
    ensures |NotSent(details, Kept(details, ids))| <= |SuppressedIds(ids, details)|
    ensures (forall i :: 0 <= i < |ids| ==> ids[i] in details) ==>
      |NotSent(details, Kept(details, ids))| == |SuppressedIds(ids, details)|
  {
    var m := NotSent(details, Kept(details, ids));
    var s := SuppressedIds(ids, details);
    assert m.Keys == s * details.Keys;
    assert |m.Keys| == |m|;
    SubsetCard(s * details.Keys, s);
    if forall i :: 0 <= i < |ids| ==> ids[i] in details {
      assert s * details.Keys == s;
    }
  }

  // ---------------------------------------------------------------------------
  // Case activities
  // ---------------------------------------------------------------------------

  /** The record asked of the host to file the sent email under a case. */
  datatype CaseActivity = CaseActivity(activityId: string, caseId: string)

  /** The numeric entries of `tokens`, in order. */
  function NumericIds(tokens: seq<string>): (r: seq<string>)
    ensures |r| <= |tokens|
  {
    if |tokens| == 0 then []
    else NumericIds(tokens[..|tokens| - 1]) + (if IsNumeric(tokens[|tokens| - 1]) then [tokens[|tokens| - 1]] else [])
  }

  function CaseActivities(activityId: string, caseIds: seq<string>): seq<CaseActivity>
  {
    seq(|caseIds|, i requires 0 <= i < |caseIds| => CaseActivity(activityId, caseIds[i]))
  }

  lemma NumericIdsSnoc(tokens: seq<string>, t: string)
    ensures NumericIds(tokens + [t]) == NumericIds(tokens) + (if IsNumeric(t) then [t] else [])
  {
    assert (tokens + [t])[..|tokens|] == tokens;
  }

  lemma CaseActivitiesAppend(activityId: string, xs: seq<string>, ys: seq<string>)
    ensures CaseActivities(activityId, xs + ys) == CaseActivities(activityId, xs) + CaseActivities(activityId, ys)
  {
  }

  lemma CaseActivitiesStep(activityId: string, xs: seq<string>, zs: seq<string>, t: string, keep: bool)
    requires zs == xs + (if keep then [t] else [])
    ensures CaseActivities(activityId, zs) ==
      CaseActivities(activityId, xs) + (if keep then [CaseActivity(activityId, t)] else [])
  {
    CaseActivitiesAppend(activityId, xs, if keep then [t] else []);
  }

  lemma CaseActivitiesSnoc(activityId: string, tokens: seq<string>, t: string)
    ensures CaseActivities(activityId, NumericIds(tokens + [t])) ==
      CaseActivities(activityId, NumericIds(tokens)) + (if IsNumeric(t) then [CaseActivity(activityId, t)] else [])
  {
    NumericIdsSnoc(tokens, t);
    CaseActivitiesStep(activityId, NumericIds(tokens), NumericIds(tokens + [t]), t, IsNumeric(t));
  }

  /** A case id gets a record exactly when it is one of the listed ids and is numeric. */
  lemma {:induction false} NumericIdsMembership(tokens: seq<string>, v: string)
    ensures v in NumericIds(tokens) <==> v in tokens && IsNumeric(v)
  {
    if |tokens| > 0 {
      var n := |tokens| - 1;
      NumericIdsMembership(tokens[..n], v);
      assert tokens == tokens[..n] + [tokens[n]];
    }
  }

  /** Every case id that gets a record is numeric. */
  lemma NumericIdsAreNumeric(tokens: seq<string>)
    ensures forall i :: 0 <= i < |NumericIds(tokens)| ==> IsNumeric(NumericIds(tokens)[i])
  {
    forall i | 0 <= i < |NumericIds(tokens)| ensures IsNumeric(NumericIds(tokens)[i]) {
      NumericIdsMembership(tokens, NumericIds(tokens)[i]);
    }
  }

  lemma {:induction false} NumericIdsOfNumeric(tokens: seq<string>)
    requires forall i :: 0 <= i < |tokens| ==> IsNumeric(tokens[i])
    ensures NumericIds(tokens) == tokens
  {
    if |tokens| > 0 {
      var n := |tokens| - 1;
      assert IsNumeric(tokens[n]);
      NumericIdsOfNumeric(tokens[..n]);
      assert tokens == tokens[..n] + [tokens[n]];
      NumericIdsSnoc(tokens[..n], tokens[n]);
    }
  }

  /** A comma-separated list of decimal case ids files the activity under every one of them, in order. */
  lemma DecimalCaseIdsKept(ns: seq<nat>)
    ensures var ids := seq(|ns|, i requires 0 <= i < |ns| => DecimalString(ns[i]));
      NumericIds(Explode(",", Implode(",", ids))) == ids
  {
    var ids := seq(|ns|, i requires 0 <= i < |ns| => DecimalString(ns[i]));
    forall i | 0 <= i < |ids| ensures Avoids(ids[i], ",") && IsNumeric(ids[i]) {
      DecimalStringIsNumeric(ns[i]);
    }
    if |ids| == 0 {
      assert Explode(",", "") == [""];
      assert NumericIds([""]) == [];
    } else {
      ExplodeImplode(",", ids);
      NumericIdsOfNumeric(ids);
    }
  }

  // ---------------------------------------------------------------------------
  // Message template writes
  // ---------------------------------------------------------------------------

  /** The submitted form values the model reads; a missing value is "". */
  datatype FormValues = FormValues(
    subject: string,
    textMessage: string,
    htmlMessage: string,
    ccId: string,
    bccId: string,
    template: string,
    saveTemplate: string,
    saveTemplateName: string,
    updateTemplate: string)

  /** A message template record written to the host: a new one has no id, an update no title. */
  datatype MessageTemplate = MessageTemplate(
    msgText: string,
    msgHtml: string,
    msgSubject: string,
    isActive: bool,
    msgTitle: Option<string>,
    id: Option<string>)

  /**
   * The template writes of one submission, in order: a new template titled
   * with the given name when saving is asked for, then an update of the
   * selected template when updating is asked for and a template is selected.
   */
  function SaveMessageTemplate(fv: FormValues): (writes: seq<MessageTemplate>)
    ensures |writes| == (if Truthy(fv.saveTemplate) then 1 else 0) + (if Truthy(fv.template) && Truthy(fv.updateTemplate) then 1 else 0)
    ensures writes != [] ==> Truthy(fv.saveTemplate) || Truthy(fv.updateTemplate)
    ensures Truthy(fv.saveTemplate) <==> |writes| > 0 && writes[0].id.None?
    ensures Truthy(fv.template) && Truthy(fv.updateTemplate) <==> |writes| > 0 && writes[|writes| - 1].id.Some?
    ensures forall i :: 0 <= i < |writes| && writes[i].id.None? ==> writes[i].msgTitle == Some(fv.saveTemplateName)
    ensures forall i :: 0 <= i < |writes| && writes[i].id.Some? ==> writes[i].id == Some(fv.template) && writes[i].msgTitle == None
    ensures forall i :: 0 <= i < |writes| ==>
      writes[i].msgText == fv.textMessage && writes[i].msgHtml == fv.htmlMessage &&
      writes[i].msgSubject == fv.subject && writes[i].isActive
  {
    if Truthy(fv.saveTemplate) || Truthy(fv.updateTemplate) then
      var base := MessageTemplate(fv.textMessage, fv.htmlMessage, fv.subject, true, None, None);
      var created := if Truthy(fv.saveTemplate) then [base.(msgTitle := Some(fv.saveTemplateName))] else [];
      var updated := if Truthy(fv.template) && Truthy(fv.updateTemplate) then [base.(id := Some(fv.template))] else [];
      created + updated
    else
      []
  }
}
