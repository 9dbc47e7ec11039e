# Recipient bookkeeping of the msgtplsender email form

This project models the recipient bookkeeping of the CiviCRM extension
msgtplsender: the "send email" form `CRM_Msgtplsender_Form_Email`. When the
form is built, it parses the comma-separated `contactId::email` tokens of
its to, cc and bcc fields into lists of contact ids. Unless the form is
standalone and every field is empty, it then looks up the details of every
selected contact and suppresses the contacts that must not be emailed:
do-not-email set, no email, deceased, or on hold. A surviving contact is shown
in at most one of the to, cc and bcc lists, and every surviving contact of a
to, cc or bcc field is shown in exactly one of them. When the to field is
empty, the selection is the to list. When the to field has a value, it
replaces the selection as the to list, and a selected contact that no field
lists is checked and counted but not shown. When no to entry survives, the
form bounces.

On submit, the form does five things:
- writes or updates message templates as asked;
- narrows the recipients to the chosen contact;
- builds one mail recipient per distinct `contactId::email`;
- formats the cc and bcc lines;
- works out who was not emailed and files the activity under every numeric case id.

The form is the class `Msgtplsender.EmailForm`, whose fields are the form
properties that the source updates in place: `_contactIds`, `_toContactIds`,
`_ccContactIds`, `_bccContactIds`, `_allContactIds`, `_toContactEmails`,
`_contactDetails`, `_allContactDetails`, `_toContactDetails`, `_single`,
`_toEmail` and `_caseId`. Its methods keep the source's loops. Each method is
proved against value-level definitions in three modules:
- `Recipients`: parsing, suppression and classification;
- `Delivery`: de-duplication, copies, the not-sent set, case activities and templates;
- `Php`: the PHP built-ins the form relies on.

The properties are lemmas about those definitions.

Modules:
- `Wrappers`: `Option`.
- `Sequences`: first occurrences, i.e. `array_unique` as `Unique`.
- `Php`: truthiness, `explode`/`implode`, `is_numeric`.
- `Recipients`: token parsing, the suppression rule, the to/cc/bcc precedence and the list entries.
- `Delivery`: the pre-send de-duplication, the cc/bcc lines, the not-sent set, the case-id filter and `saveMessageTemplate`.
- `Msgtplsender`: the `EmailForm` class.

Host services are inputs:
- `getTokenDetails` is `TokenDetails` over a directory map that the caller supplies.
- The contact returned by `civicrm_api3('Contact', 'getsingle')` is `cidContact`.
- The activity id returned by `sendEmail` is `activityId`.
- `CRM_Utils_System::url` is a function parameter `contactUrl`.
- `MessageTemplate::add`, `sendEmail` and `processCaseActivity` become records returned in a `Submission`: the template writes, the send request and the case activities.

Two readings of PHP semantics shape the model:
- A contact id of "0" is skipped like an empty one, because PHP treats "0" as false.
- A contact with no details reads as `null`, so it counts as suppressed.

## Model

| member | source | states |
|---|---|---|
| Php.Explode | CRM/Msgtplsender/Form/Email.php:220 | `explode` always yields at least one part, so a field with a value produces at least one token |
| Php.ImplodeExplode | CRM/Msgtplsender/Form/Email.php:220 | joining the parts of a split with the same separator gives back the original string |
| Php.ExplodeImplode | CRM/Msgtplsender/Form/Email.php:227 | splitting a join of separator-free parts gives back those parts, so `cid::email` reads back as its two parts |
| Php.ExplodeWithout | CRM/Msgtplsender/Form/Email.php:220 | a string without the separator splits into itself alone |
| Php.ExplodeCons | CRM/Msgtplsender/Form/Email.php:220 | a leading separator-free part followed by the separator is split off as the first part |
| Php.DigitRunIsMaximal | CRM/Msgtplsender/Form/Email.php:603 | the digit run that `is_numeric` scans is the longest prefix of digits |
| Php.DecimalString | CRM/Msgtplsender/Form/Email.php:603 | the decimal rendering of a case number is a non-empty string of digits |
| Php.DigitRunOfDigits | CRM/Msgtplsender/Form/Email.php:603 | an all-digit string is one digit run |
| Php.DecimalStringIsNumeric | CRM/Msgtplsender/Form/Email.php:603 | `is_numeric` accepts every decimal case number |
| Sequences.FirstPositions | CRM/Msgtplsender/Form/Email.php:281 | `array_unique` keeps positions that lie in the list, in strictly increasing order |
| Sequences.FirstPositionsCharacterized | CRM/Msgtplsender/Form/Email.php:281 | a position is kept by `array_unique` exactly when its value does not occur earlier |
| Sequences.UniqueNoDuplicates | CRM/Msgtplsender/Form/Email.php:281 | the validation loop visits no contact twice |
| Sequences.UniqueSameElements | CRM/Msgtplsender/Form/Email.php:281 | the validation loop visits exactly the selected contacts |
| Sequences.UniqueOfDistinct | CRM/Msgtplsender/Form/Email.php:281 | `array_unique` leaves a list without repeats unchanged |
| Sequences.FirstPositionsSnoc | CRM/Msgtplsender/Form/Email.php:281 | one more element adds its position exactly when its value is new |
| Sequences.UniqueSnoc | CRM/Msgtplsender/Form/Email.php:281 | one more element is kept by `array_unique` exactly when it is new |
| Recipients.ParseFormatToken | CRM/Msgtplsender/Form/Email.php:227 | a `cid::email` token without colons reads back as its contact id and email |
| Recipients.Parsed | CRM/Msgtplsender/Form/Email.php:226-246 | the parsed addresses are at most as many as the tokens, and every parsed contact id is truthy |
| Recipients.ParsedMembership | CRM/Msgtplsender/Form/Email.php:226-246 | an address is parsed exactly when some token reads as it and its contact id is truthy |
| Recipients.ParsedFormatTokens | CRM/Msgtplsender/Form/Email.php:226-246 | parsing the tokens of well-formed addresses gives back exactly those addresses, in order |
| Recipients.ParseFormatField | CRM/Msgtplsender/Form/Email.php:219-227 | a field value built from well-formed addresses parses back to them, including the empty list |
| Recipients.SuppressedCountIsCardinality | CRM/Msgtplsender/Form/Email.php:281-285 | over a list without repeats, the suppression counter equals the number of suppressed contacts |
| Recipients.SuppressedEmailsCount | CRM/Msgtplsender/Form/Email.php:281-285 | `suppressedEmails` is the number of distinct selected contacts that are suppressed |
| Recipients.SuppressedSnoc | CRM/Msgtplsender/Form/Email.php:281-285 | checking one more contact adds it to the suppressed set and the counter exactly when it is suppressed |
| Recipients.KeptExactly | CRM/Msgtplsender/Form/Email.php:283-289 | exactly the suppressed selected contacts lose their details; every other entry is unchanged |
| Recipients.Placed | CRM/Msgtplsender/Form/Email.php:291-316 | every contact shown in a list has details |
| Recipients.PlacedMembership | CRM/Msgtplsender/Form/Email.php:291-316 | a contact is shown in a list exactly when it is selected, not suppressed, and that list has precedence for it |
| Recipients.AtMostOneList | CRM/Msgtplsender/Form/Email.php:294-316 | no contact is in two lists; to beats cc beats bcc; every surviving contact of a field is shown |
| Recipients.PlacedNoDuplicates | CRM/Msgtplsender/Form/Email.php:281-316 | no list shows a contact twice |
| Recipients.EntryEmail | CRM/Msgtplsender/Form/Email.php:292-299 | the shown email differs from the contact's own only in the to entry of the contact the requested address belongs to, and is then that address |
| Recipients.EntryIdRoundTrip | CRM/Msgtplsender/Form/Email.php:300-303 | an entry id reads back as the contact and the email shown |
| Recipients.ViewSnoc | CRM/Msgtplsender/Form/Email.php:281-316 | one more contact either increments the counter or appends its `"sort name" <email>` entry to the one list it belongs to |
| Recipients.ToDetailsSnoc | CRM/Msgtplsender/Form/Email.php:295-296 | the to details grow by a contact exactly when it is shown in the to list |
| Recipients.BouncesIffNoToSurvives | CRM/Msgtplsender/Form/Email.php:320-324 | the form bounces exactly when every selected to contact is suppressed |
| Delivery.DedupSnoc | CRM/Msgtplsender/Form/Email.php:510-516 | a recipient is appended exactly when its key is new |
| Delivery.DedupStep | CRM/Msgtplsender/Form/Email.php:510-516 | measured against the collected keys, a new key appends its key and formatted detail; a seen key changes nothing |
| Delivery.CandidatesSnoc | CRM/Msgtplsender/Form/Email.php:500-509 | a position contributes a candidate exactly when its contact has details, with the email at that position |
| Delivery.CandidatesMembership | CRM/Msgtplsender/Form/Email.php:500-509 | every candidate comes from a position whose contact has details |
| Delivery.KeysOfDedup | CRM/Msgtplsender/Form/Email.php:510-512 | the collected keys are the distinct keys in first-occurrence order |
| Delivery.DedupSpec | CRM/Msgtplsender/Form/Email.php:497-517 | no two recipients share a key; every position with details is covered; each recipient carries its position's email and no email id; first occurrences, in order |
| Delivery.CopyOfShownEntry | CRM/Msgtplsender/Form/Email.php:464-472 | the copy address built at submit time from a shown cc or bcc entry's id is that entry's text |
| Delivery.CopyLineOfField | CRM/Msgtplsender/Form/Email.php:460-482 | the cc or bcc line of a field listing well-formed addresses is their copy addresses joined by commas, one per address, in order; an empty field gives an empty line |
| Delivery.CopiesKeepSuppressed | CRM/Msgtplsender/Form/Email.php:464-472 | a cc/bcc contact whose details were unset still gets a copy address, with an empty name |
| Delivery.NotSentAreSuppressed | CRM/Msgtplsender/Form/Email.php:582 | the not-sent set is exactly the suppressed contacts that have details, with their full details |
| Delivery.NumericIdsAreNumeric | CRM/Msgtplsender/Form/Email.php:601-603 | every case id that gets a record is numeric |
| Delivery.NumericIdsSnoc | CRM/Msgtplsender/Form/Email.php:602-603 | one more case id is kept exactly when it is numeric |
| Delivery.CaseActivitiesAppend | CRM/Msgtplsender/Form/Email.php:602-609 | the records of two runs of case ids are the records of each, one after the other |
| Delivery.CaseActivitiesSnoc | CRM/Msgtplsender/Form/Email.php:602-609 | one more case id adds a record exactly when it is numeric |
| Delivery.NumericIdsMembership | CRM/Msgtplsender/Form/Email.php:601-603 | a case id gets a record exactly when it is listed and numeric |
| Delivery.NumericIdsOfNumeric | CRM/Msgtplsender/Form/Email.php:601-603 | when every id is numeric, every id gets a record, in order |
| Delivery.DecimalCaseIdsKept | CRM/Msgtplsender/Form/Email.php:599-611 | a comma-joined list of decimal case ids files one record per id, in order; an empty case id files none |
| Delivery.SaveMessageTemplate | CRM/Msgtplsender/Form/Email.php:619-639 | one write per operation asked for (save, update); no write unless save or update is asked for; a new template exactly when saving, with the given title; an update exactly when a template is selected and updating is asked for, with that id and no title; both can happen in one call |
| Msgtplsender.EmailForm.constructor | CRM/Msgtplsender/Form/Email.php:93-106 | a form starts with the selected contacts, the requested address and the case id, and every other list and map empty; a requested address has a truthy contact id and email, as line 102 keeps only such an address |
| Msgtplsender.EmailForm.FieldTokens | CRM/Msgtplsender/Form/Email.php:226-246 | the ids and emails gathered from a field are those of its parsed addresses |
| Msgtplsender.EmailForm.ParseField | CRM/Msgtplsender/Form/Email.php:219-249 | a field with a value resets (to) or extends (cc, bcc) its list with the parsed ids, appends to every selected contact, and records the to emails; a field with no value changes nothing |
| Msgtplsender.EmailForm.SelectRecipients | CRM/Msgtplsender/Form/Email.php:196-249 | the selection is the request's contact ids; the to field replaces it; every selected, to, cc and bcc id is in `_allContactIds`, in that order |
| Msgtplsender.EmailForm.Classify | CRM/Msgtplsender/Form/Email.php:281-318 | the validation loop builds exactly the specified lists and counter, the kept details and the to details |
| Msgtplsender.EmailForm.KeptSnoc | CRM/Msgtplsender/Form/Email.php:282-289 | the next distinct contact still has the details read from the host |
| Msgtplsender.EmailForm.ValidateRecipients | CRM/Msgtplsender/Form/Email.php:259-318 | the details of every selected contact are saved, the suppressed ones unset, and the lists, counter and to details are the specified ones |
| Msgtplsender.EmailForm.BuildRecipients | CRM/Msgtplsender/Form/Email.php:192-324 | the whole build: selection, fields, the activity's contacts, the check when not standalone or when a field has a value, and the bounce exactly when no to entry survives |
| Msgtplsender.EmailForm.FormatContactDetails | CRM/Msgtplsender/Form/Email.php:497-517 | the recipients are the de-duplicated candidates: no repeated key, every position with details covered, email ids dropped |
| Msgtplsender.EmailForm.CopyField | CRM/Msgtplsender/Form/Email.php:460-477 | one copy address and one contact link per token of the field |
| Msgtplsender.EmailForm.CopyLines | CRM/Msgtplsender/Form/Email.php:456-489 | the cc and bcc lines and the activity details are the specified copies |
| Msgtplsender.EmailForm.CaseRecords | CRM/Msgtplsender/Form/Email.php:602-610 | the loop over the case ids builds one record per numeric id, in order |
| Msgtplsender.EmailForm.RecordCaseActivities | CRM/Msgtplsender/Form/Email.php:599-611 | no record without a case id; otherwise one record per numeric listed case id, in order, filed under the sent activity |
| Msgtplsender.EmailForm.Narrow | CRM/Msgtplsender/Form/Email.php:446-447 | the selection, the to list and every selected contact become the chosen contact alone, with the details the host returned; nothing else changes |
| Msgtplsender.EmailForm.Dispatch | CRM/Msgtplsender/Form/Email.php:456-611 | the send request carries the de-duplicated recipients, the message, the cc and bcc lines, the to contacts and the copy details; the not-sent set and the case records are the specified ones |
| Msgtplsender.EmailForm.Submit | CRM/Msgtplsender/Form/Email.php:443-611 | the template writes, the narrowing to the chosen contact, the send request, the not-sent set and the case records of a submission |

## Left out

- `getTokenDetails`, `civicrm_api3` lookups, `sendEmail`, `MessageTemplate::add` and `processCaseActivity` are host calls. Their answers are inputs: a directory map, the chosen contact's details and the activity id. Their effects are returned as records.
- `preProcess`, which reads the request, is not modelled. Its results (the selected contacts, the requested address and the case id) are the constructor's inputs. The same goes for `postProcess`, which rewrites the to value from an email id.
- Form elements, template select lists, titles, permission checks, redirects, session and status messages, `ts()` and `json_encode` are presentation and host framework state.
- `bounceIfSimpleMailLimitExceeded` is not modelled; it reads a host setting.
- The sender address (`formatFromAddress`) and attachments are not modelled; they are foreign library calls.
- Follow-up activities, assignee notification, campaign and contribution ids are not modelled; they are host calls whose results the bookkeeping does not use.
- Msgtplsender.EmailForm.BuildRecipients: the contacts of the activity the form replies to (`$form->get('contacts')`) are given as an optional input, present exactly when the form was opened from such an activity.
- Msgtplsender.EmailForm.BuildRecipients: the `is_array` guard is not modelled; the id list is always a list here.
- Msgtplsender.EmailForm.Dispatch: the mailer gets `_toContactIds` as the to contacts. The source passes the keys of `_toContactDetails`; after narrowing, both are the chosen contact alone.
- `in_array` and `==` compare loosely in PHP (`"01" == "1"`). The model compares contact ids as strings.
- A PHP `null` read as a string is "". This covers a token without `::` (its email), a missing position of `_toContactEmails`, and a missing contact's name in a cc/bcc line. The activity details start as "" rather than `NULL`.
- Form values are strings and their truthiness is PHP's: "" and "0" are falsy. Arrays, numbers and other PHP types are not modelled.
- `array_diff_assoc` compares the string forms of its values, and for arrays that form is always "Array". The not-sent set is therefore modelled as a difference of keys.
- `is_numeric` follows PHP 8: optional surrounding whitespace, a sign, digits with an optional decimal point, and an exponent. Hexadecimal and other legacy forms are not accepted.
- msgtplsender.php is hook boilerplate delegating to generated code and is not part of this model.
