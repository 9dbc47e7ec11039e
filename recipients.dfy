/**
 * The recipient bookkeeping the email form does while it builds itself, as
 * values: parsing of the `contactId::email` fields, the suppression rules and
 * the to/cc/bcc classification, with the lemmas that state what each promises.
 */
module Recipients {
  import opened Wrappers
  import opened Sequences
  import opened Php

  /** The token details the host returns for one contact; the flags after PHP's boolean coercion. */
  datatype ContactDetail = ContactDetail(
    sortName: string,
    displayName: string,
    email: string,
    emailId: Option<string>,
    doNotEmail: bool,
    isDeceased: bool,
    onHold: bool)

  /** The two halves of a `contactId::email` token. */
  datatype Address = Address(contactId: string, email: string)

  /** An entry of the to, cc or bcc list shown on the form: its label and its `contactId::email` id. */
  datatype Recipient = Recipient(text: string, id: string)

  /** The three recipient fields. */
  datatype Field = To | Cc | Bcc

  /** The contact ids collected for each recipient field. */
  datatype FieldIds = FieldIds(to: seq<string>, cc: seq<string>, bcc: seq<string>)

  // ---------------------------------------------------------------------------
  // Parsing the recipient fields
  // ---------------------------------------------------------------------------

  function FormatToken(a: Address): string
  {
    a.contactId + "::" + a.email
  }

  /**
   * `list($contactId, $email) = explode('::', $token)`: the first two pieces;
   * without a separator `$email` is null, which reads as "".
   */
  function ParseToken(token: string): Address
  {
    var parts := Explode("::", token);
    Address(parts[0], if |parts| > 1 then parts[1] else "")
  }

  /** A token the form writes is read back as the address it was written from. */
  lemma ParseFormatToken(a: Address)
    requires Avoids(a.contactId, ":") && Avoids(a.email, ":")
    ensures ParseToken(FormatToken(a)) == a
  {
    var parts := [a.contactId, a.email];
    assert parts[1..] == [a.email];
    assert Implode("::", parts) == FormatToken(a);
    ExplodeImplode("::", parts);
  }

  /** The addresses of the tokens whose contact id is truthy, in input order. */
  function Parsed(tokens: seq<string>): (r: seq<Address>)
    ensures |r| <= |tokens|
    ensures forall i :: 0 <= i < |r| ==> Truthy(r[i].contactId)
  {
    if |tokens| == 0 then []
    else
      var a := ParseToken(tokens[|tokens| - 1]);
      Parsed(tokens[..|tokens| - 1]) + (if Truthy(a.contactId) then [a] else [])
  }

  function Ids(addrs: seq<Address>): (r: seq<string>)
  {
    seq(|addrs|, i requires 0 <= i < |addrs| => addrs[i].contactId)
  }

  function Emails(addrs: seq<Address>): (r: seq<string>)
  {
    seq(|addrs|, i requires 0 <= i < |addrs| => addrs[i].email)
  }

  /** The addresses of a recipient field: none when its value is falsy. */
  function FieldAddresses(value: string): seq<Address>
  {
    if Truthy(value) then Parsed(Explode(",", value)) else []
  }

  lemma ParsedSnoc(tokens: seq<string>, t: string)
    ensures Parsed(tokens + [t]) ==
      Parsed(tokens) + (if Truthy(ParseToken(t).contactId) then [ParseToken(t)] else [])
  {
    assert (tokens + [t])[..|tokens|] == tokens;
  }

  lemma IdsEmailsSnoc(addrs: seq<Address>, more: seq<Address>)
    ensures Ids(addrs + more) == Ids(addrs) + Ids(more)
    ensures Emails(addrs + more) == Emails(addrs) + Emails(more)
  {
  }

  /** An address is parsed exactly when some token reads as it and its contact id is truthy. */
  lemma {:induction false} ParsedMembership(tokens: seq<string>, a: Address)
    ensures a in Parsed(tokens) <==>
      Truthy(a.contactId) && exists j :: 0 <= j < |tokens| && ParseToken(tokens[j]) == a
  {
    if |tokens| > 0 {
      var n := |tokens| - 1;
      var prefix, t := tokens[..n], tokens[n];
      ParsedMembership(prefix, a);
      assert tokens == prefix + [t];
      ParsedSnoc(prefix, t);
      if exists j :: 0 <= j < |tokens| && ParseToken(tokens[j]) == a {
        var j :| 0 <= j < |tokens| && ParseToken(tokens[j]) == a;
        if j < n {
          assert prefix[j] == tokens[j];
        }
      }
    }
  }

  function FormatTokens(addrs: seq<Address>): (r: seq<string>)
  {
    seq(|addrs|, i requires 0 <= i < |addrs| => FormatToken(addrs[i]))
  }

  /** The value of a recipient field that lists `addrs`: their tokens joined by commas. */
  function FormatField(addrs: seq<Address>): string
  {
    Implode(",", FormatTokens(addrs))
  }

  /** A well-formed address: truthy contact id, no ':' or ',' in either half. */
  predicate WellFormed(a: Address)
  {
    Truthy(a.contactId) && Avoids(a.contactId, ":,") && Avoids(a.email, ":,")
  }

  lemma {:induction false} ParsedFormatTokens(addrs: seq<Address>)
    requires forall i :: 0 <= i < |addrs| ==> WellFormed(addrs[i])
    ensures Parsed(FormatTokens(addrs)) == addrs
  {
    if |addrs| > 0 {
      var n := |addrs| - 1;
      assert FormatTokens(addrs)[..n] == FormatTokens(addrs[..n]);
      ParsedFormatTokens(addrs[..n]);
      ParseFormatToken(addrs[n]);
      assert addrs == addrs[..n] + [addrs[n]];
    }
  }

  /** Parsing a field the form wrote gives back exactly the addresses, in order. */
  lemma ParseFormatField(addrs: seq<Address>)
    requires forall i :: 0 <= i < |addrs| ==> WellFormed(addrs[i])
    ensures Parsed(Explode(",", FormatField(addrs))) == addrs
  {
    var tokens := FormatTokens(addrs);
    if |addrs| == 0 {
      assert Explode(",", "") == [""];
      assert Explode("::", "") == [""];
      assert Parsed([""]) == [];
    } else {
      forall i | 0 <= i < |tokens| ensures Avoids(tokens[i], ",") {
        assert tokens[i] == addrs[i].contactId + "::" + addrs[i].email;
      }
      ExplodeImplode(",", tokens);
      ParsedFormatTokens(addrs);
    }
  }

  // ---------------------------------------------------------------------------
  // Suppression
  // ---------------------------------------------------------------------------

  /**
   * A contact gets no email when the host has no details for it, it asks
   * not to be emailed, it has no email address, it is deceased, or its
   * address is on hold.
   */
  predicate Suppressed(details: map<string, ContactDetail>, c: string)
  {
    c !in details || details[c].doNotEmail || !Truthy(details[c].email) ||
    details[c].isDeceased || details[c].onHold
  }

  function SuppressedIds(ids: seq<string>, details: map<string, ContactDetail>): set<string>
  {
    set c | c in ids && Suppressed(details, c)
  }

  /** How many entries of `uniq` are suppressed. */
  function SuppressedCount(uniq: seq<string>, details: map<string, ContactDetail>): nat
  {
    if |uniq| == 0 then 0
    else SuppressedCount(uniq[..|uniq| - 1], details) + (if Suppressed(details, uniq[|uniq| - 1]) then 1 else 0)
  }

  /** Counting the suppressed entries of a list without repeats counts the suppressed contacts. */
  lemma {:induction false} SuppressedCountIsCardinality(uniq: seq<string>, details: map<string, ContactDetail>)
    requires NoDuplicates(uniq)
    ensures SuppressedCount(uniq, details) == |SuppressedIds(uniq, details)|
  {
    if |uniq| > 0 {
      var n := |uniq| - 1;
      var prefix, c := uniq[..n], uniq[n];
      assert NoDuplicates(prefix);
      SuppressedCountIsCardinality(prefix, details);
      assert uniq == prefix + [c];
      SuppressedSnoc(prefix, c, details);
      assert c !in prefix;
      assert c !in SuppressedIds(prefix, details);
    }
  }

  /** The counter the form shows equals the number of distinct suppressed contacts it was given. */
  lemma SuppressedEmailsCount(all: seq<string>, details: map<string, ContactDetail>)
    ensures SuppressedCount(Unique(all), details) == |SuppressedIds(all, details)|
  {
    UniqueNoDuplicates(all);
    SuppressedCountIsCardinality(Unique(all), details);
    UniqueSameElements(all);
    assert SuppressedIds(Unique(all), details) == SuppressedIds(all, details);
  }

  lemma SuppressedSnoc(uniq: seq<string>, c: string, details: map<string, ContactDetail>)
    ensures SuppressedIds(uniq + [c], details) ==
      SuppressedIds(uniq, details) + (if Suppressed(details, c) then {c} else {})
    ensures SuppressedCount(uniq + [c], details) ==
      SuppressedCount(uniq, details) + (if Suppressed(details, c) then 1 else 0)
  {
    assert (uniq + [c])[..|uniq|] == uniq;
  }

  /** The details left after the suppressed contacts of `ids` are unset. */
  function Kept(details: map<string, ContactDetail>, ids: seq<string>): map<string, ContactDetail>
  {
    details - SuppressedIds(ids, details)
  }

  /** Exactly the suppressed contacts lose their details; every other entry is kept as it was. */
  lemma KeptExactly(details: map<string, ContactDetail>, ids: seq<string>, c: string)
    ensures c in Kept(details, ids) <==> c in details && !(c in ids && Suppressed(details, c))
    ensures c in Kept(details, ids) ==> Kept(details, ids)[c] == details[c]
  {
  }

  // ---------------------------------------------------------------------------
  // Classification into the to, cc and bcc lists
  // ---------------------------------------------------------------------------

  /** The list a surviving contact is shown in: to before cc before bcc. */
  function Placement(c: string, ids: FieldIds): Option<Field>
  {
    if c in ids.to then Some(To)
    else if c in ids.cc then Some(Cc)
    else if c in ids.bcc then Some(Bcc)
    else None
  }

  /** The unsuppressed contacts of `uniq` shown in `field`, in the order of `uniq`. */
  function Placed(uniq: seq<string>, details: map<string, ContactDetail>, ids: FieldIds, field: Field): (r: seq<string>)
    ensures forall i :: 0 <= i < |r| ==> r[i] in details
  {
    if |uniq| == 0 then []
    else
      var c := uniq[|uniq| - 1];
      Placed(uniq[..|uniq| - 1], details, ids, field) +
        (if !Suppressed(details, c) && Placement(c, ids) == Some(field) then [c] else [])
  }

  lemma PlacedSnoc(uniq: seq<string>, c: string, details: map<string, ContactDetail>, ids: FieldIds, field: Field)
    ensures Placed(uniq + [c], details, ids, field) ==
      Placed(uniq, details, ids, field) + (if !Suppressed(details, c) && Placement(c, ids) == Some(field) then [c] else [])
  {
    assert (uniq + [c])[..|uniq|] == uniq;
  }

  /** A contact is in a list exactly when it is selected, not suppressed, and that list has precedence for it. */
  lemma {:induction false} PlacedMembership(uniq: seq<string>, details: map<string, ContactDetail>, ids: FieldIds,
                                            field: Field, c: string)
    ensures c in Placed(uniq, details, ids, field) <==>
      c in uniq && !Suppressed(details, c) && Placement(c, ids) == Some(field)
  {
    if |uniq| > 0 {
      var n := |uniq| - 1;
      PlacedMembership(uniq[..n], details, ids, field, c);
      assert uniq == uniq[..n] + [uniq[n]];
    }
  }

  /** No contact is shown in two lists, and the to list takes precedence over cc, cc over bcc. */
  lemma AtMostOneList(uniq: seq<string>, details: map<string, ContactDetail>, ids: FieldIds, c: string)
    ensures c in Placed(uniq, details, ids, To) ==> c !in Placed(uniq, details, ids, Cc) && c !in Placed(uniq, details, ids, Bcc)
    ensures c in Placed(uniq, details, ids, Cc) ==> c !in Placed(uniq, details, ids, Bcc) && c !in ids.to
    ensures c in Placed(uniq, details, ids, Bcc) ==> c !in ids.to && c !in ids.cc
    ensures c in uniq && !Suppressed(details, c) && (c in ids.to || c in ids.cc || c in ids.bcc) ==>
      c in Placed(uniq, details, ids, To) || c in Placed(uniq, details, ids, Cc) || c in Placed(uniq, details, ids, Bcc)
  {
    PlacedMembership(uniq, details, ids, To, c);
    PlacedMembership(uniq, details, ids, Cc, c);
    PlacedMembership(uniq, details, ids, Bcc, c);
  }

  /** A list built from contacts without repeats has no repeats. */
  lemma {:induction false} PlacedNoDuplicates(uniq: seq<string>, details: map<string, ContactDetail>, ids: FieldIds, field: Field)
    requires NoDuplicates(uniq)
    ensures NoDuplicates(Placed(uniq, details, ids, field))
  {
    if |uniq| > 0 {
      var n := |uniq| - 1;
      assert NoDuplicates(uniq[..n]);
      PlacedNoDuplicates(uniq[..n], details, ids, field);
      PlacedMembership(uniq[..n], details, ids, field, uniq[n]);
      assert uniq[n] !in uniq[..n];
    }
  }

  /**
   * The email shown for a contact: the specifically requested address for the
   * to entry of the contact it belongs to, otherwise the contact's own.
   */
  function EntryEmail(c: string, d: ContactDetail, field: Field, toEmail: Option<Address>): (e: string)
    ensures field != To ==> e == d.email
    ensures toEmail.None? ==> e == d.email
    ensures e != d.email ==> field == To && toEmail == Some(Address(c, e))
    ensures field == To && toEmail.Some? && toEmail.value.contactId == c ==> e == toEmail.value.email
  {
    if field == To && toEmail.Some? && toEmail.value.contactId == c then toEmail.value.email else d.email
  }

  /** A list entry: the text `"sort name" <email>` and the id `contactId::email`. */
  function MakeEntry(c: string, sortName: string, email: string): Recipient
  {
    Recipient("\"" + sortName + "\" <" + email + ">", FormatToken(Address(c, email)))
  }

  function Entries(cs: seq<string>, details: map<string, ContactDetail>, field: Field, toEmail: Option<Address>): (r: seq<Recipient>)
    requires forall i :: 0 <= i < |cs| ==> cs[i] in details
  {
    seq(|cs|, i requires 0 <= i < |cs| =>
      var d := details[cs[i]];
      MakeEntry(cs[i], d.sortName, EntryEmail(cs[i], d, field, toEmail)))
  }

  lemma EntriesSnoc(cs: seq<string>, c: string, details: map<string, ContactDetail>, field: Field, toEmail: Option<Address>)
    requires forall i :: 0 <= i < |cs| ==> cs[i] in details
    requires c in details
    ensures Entries(cs + [c], details, field, toEmail) ==
      Entries(cs, details, field, toEmail) + [MakeEntry(c, details[c].sortName, EntryEmail(c, details[c], field, toEmail))]
  {
  }

  /** The entry id of a shown contact is read back as that contact and the email shown. */
  lemma EntryIdRoundTrip(c: string, sortName: string, email: string)
    requires Avoids(c, ":") && Avoids(email, ":")
    ensures ParseToken(MakeEntry(c, sortName, email).id) == Address(c, email)
  {
    ParseFormatToken(Address(c, email));
  }

  /** The lists and the counter the form shows for the recipient fields. */
  datatype RecipientView = RecipientView(
    toContact: seq<Recipient>,
    ccContact: seq<Recipient>,
    bccContact: seq<Recipient>,
    suppressedEmails: nat)

  function View(uniq: seq<string>, details: map<string, ContactDetail>, ids: FieldIds, toEmail: Option<Address>): RecipientView
  {
    RecipientView(
      Entries(Placed(uniq, details, ids, To), details, To, toEmail),
      Entries(Placed(uniq, details, ids, Cc), details, Cc, toEmail),
      Entries(Placed(uniq, details, ids, Bcc), details, Bcc, toEmail),
      SuppressedCount(uniq, details))
  }

  /** Checking one more contact either counts it as suppressed or adds its entry to the list it belongs to. */
  lemma ViewSnoc(uniq: seq<string>, c: string, details: map<string, ContactDetail>, ids: FieldIds, toEmail: Option<Address>)
    ensures var v := View(uniq, details, ids, toEmail);
      View(uniq + [c], details, ids, toEmail) ==
        if Suppressed(details, c) then v.(suppressedEmails := v.suppressedEmails + 1)
        else
          var d := details[c];
          match Placement(c, ids)
          case Some(To) => v.(toContact := v.toContact + [MakeEntry(c, d.sortName, EntryEmail(c, d, To, toEmail))])
          case Some(Cc) => v.(ccContact := v.ccContact + [MakeEntry(c, d.sortName, d.email)])
          case Some(Bcc) => v.(bccContact := v.bccContact + [MakeEntry(c, d.sortName, d.email)])
          case None => v
  {
    assert (uniq + [c])[..|uniq|] == uniq;
    PlacedSnoc(uniq, c, details, ids, To);
    PlacedSnoc(uniq, c, details, ids, Cc);
    PlacedSnoc(uniq, c, details, ids, Bcc);
    if !Suppressed(details, c) {
      EntriesSnoc(Placed(uniq, details, ids, To), c, details, To, toEmail);
      EntriesSnoc(Placed(uniq, details, ids, Cc), c, details, Cc, toEmail);
      EntriesSnoc(Placed(uniq, details, ids, Bcc), c, details, Bcc, toEmail);
    }
  }

  /** The details of the contacts shown in the to list. */
  function ToDetails(uniq: seq<string>, details: map<string, ContactDetail>, ids: FieldIds): map<string, ContactDetail>
  {
    var cs := Placed(uniq, details, ids, To);
    map c | c in cs :: details[c]
  }

  lemma ToDetailsSnoc(uniq: seq<string>, c: string, details: map<string, ContactDetail>, ids: FieldIds)
    ensures ToDetails(uniq + [c], details, ids) ==
      if !Suppressed(details, c) && Placement(c, ids) == Some(To)
      then ToDetails(uniq, details, ids)[c := details[c]]
      else ToDetails(uniq, details, ids)
  {
    PlacedSnoc(uniq, c, details, ids, To);
  }

  /** `getTokenDetails($ids)`: the details the host directory holds for the given contacts. */
  function TokenDetails(directory: map<string, ContactDetail>, ids: seq<string>): map<string, ContactDetail>
  {
    map c | c in directory && c in ids :: directory[c]
  }

  /** The form bounces exactly when every selected to contact is suppressed. */
  lemma BouncesIffNoToSurvives(uniq: seq<string>, details: map<string, ContactDetail>, ids: FieldIds, toEmail: Option<Address>)
    ensures View(uniq, details, ids, toEmail).toContact == [] <==>
      forall c :: c in uniq && c in ids.to ==> Suppressed(details, c)
  {
    var cs := Placed(uniq, details, ids, To);
    assert |Entries(cs, details, To, toEmail)| == |cs|;
    forall c | c in uniq && c in ids.to && !Suppressed(details, c) ensures cs != [] {
      PlacedMembership(uniq, details, ids, To, c);
    }
    if cs != [] {
      PlacedMembership(uniq, details, ids, To, cs[0]);
    }
  }
}
