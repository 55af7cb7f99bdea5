/**
 Building the index document of one mail (`_index_mail`, without the write).
 A mail is given as the fields its dictionary form and its attributes
 provide; a missing dictionary key is `None`.
 */
module Documents {
  import opened Wrappers
  import opened Text
  import opened Sequences

  datatype Header = Header(
    from: Option<string>,
    subject: Option<string>,
    date: Option<string>,
    to: Option<seq<string>>,
    cc: Option<seq<string>>,
    bcc: Option<seq<string>>)

  /**
   The parts of a mail the document is built from: `header`, `tags`,
   `textPlainBody` and `ident` of `mail.as_dict()`, and the attributes
   `mailbox_name`, `flags` and `raw`.
   */
  datatype Mail = Mail(
    header: Option<Header>,
    tags: Option<seq<string>>,
    textPlainBody: Option<string>,
    ident: Option<string>,
    mailboxName: string,
    flags: seq<string>,
    raw: string)

  /**
   The indexed document. `date` holds the header's date text, the input of
   the millisecond conversion.
   */
  datatype Doc = Doc(
    sender: string,
    subject: string,
    date: string,
    to: string,
    cc: string,
    bcc: string,
    tag: string,
    body: string,
    ident: string,
    flags: string,
    raw: string)

  /** A dictionary lookup `mdict[key]` that raised `KeyError`. */
  datatype BuildError = MissingKey(key: string)

  function TextOr(v: Option<string>, default: string): string
  {
    if v.Some? then v.value else default
  }

  /** `','.join(header.get(field, ['']))`: a missing address list is the empty text. */
  function Addresses(v: Option<seq<string>>): (r: string)
    ensures v.None? ==> r == ""
  {
    Join(if v.Some? then v.value else [""], ',')
  }

  /** The tag list indexed for a mail: its tags plus its lower-cased mailbox name, each once. */
  function MailTags(mail: Mail): seq<string>
  {
    var tags := if mail.tags.Some? then mail.tags.value else [];
    Unique(tags + [Lower(mail.mailboxName)])
  }

  /** The dictionary holds every key `_index_mail` looks up with `mdict[key]`. */
  predicate HasRequiredKeys(mail: Mail)
  {
    mail.header.Some? && mail.textPlainBody.Some? && mail.ident.Some?
  }

  /**
   `_index_mail`'s document: fails on the first missing key it looks up
   (`header`, then `textPlainBody`, then `ident`); otherwise every field
   comes from its source, with the tags and flags deduplicated and
   comma-joined.
   */
  function BuildDocument(mail: Mail): (r: Result<Doc, BuildError>)
    ensures r.Success? <==> HasRequiredKeys(mail)
    ensures mail.header.None? ==> r == Failure(MissingKey("header"))
    ensures mail.header.Some? && mail.textPlainBody.None? ==> r == Failure(MissingKey("textPlainBody"))
    ensures mail.header.Some? && mail.textPlainBody.Some? && mail.ident.None? ==> r == Failure(MissingKey("ident"))
    ensures r.Success? ==> r.value.ident == mail.ident.value && r.value.body == mail.textPlainBody.value
    ensures r.Success? ==> var header := mail.header.value;
              && r.value.to == Addresses(header.to)
              && r.value.cc == Addresses(header.cc)
              && r.value.bcc == Addresses(header.bcc)
    ensures r.Success? && mail.flags == [] ==> r.value.flags == ""
  {
    if mail.header.None? then Failure(MissingKey("header"))
    else if mail.textPlainBody.None? then Failure(MissingKey("textPlainBody"))
    else if mail.ident.None? then Failure(MissingKey("ident"))
    else
      var header := mail.header.value;
      Success(Doc(
        sender := TextOr(header.from, ""),
        subject := TextOr(header.subject, ""),
        date := TextOr(header.date, ""),
        to := Addresses(header.to),
        cc := Addresses(header.cc),
        bcc := Addresses(header.bcc),
        tag := Join(MailTags(mail), ','),
        body := mail.textPlainBody.value,
        ident := mail.ident.value,
        flags := Join(Unique(mail.flags), ','),
        raw := mail.raw))
  }

  /** The number of times `x` occurs in `s`. */
  function Occurrences(s: seq<string>, x: string): nat
  {
    if s == [] then 0 else Occurrences(s[..|s| - 1], x) + (if s[|s| - 1] == x then 1 else 0)
  }

  lemma {:induction false} OccurrencesOfDistinct(s: seq<string>, x: string)
    requires NoDuplicates(s)
    ensures Occurrences(s, x) == (if x in s then 1 else 0)
  {
    if s != [] {
      var p := s[..|s| - 1];
      assert NoDuplicates(p);
      OccurrencesOfDistinct(p, x);
      assert s == p + [s[|s| - 1]];
      assert s[|s| - 1] !in p;
    }
  }

  /**
   The stored `tag` field, read back by splitting at the commas, lists the
   lower-cased mailbox name exactly once and no tag twice, provided no tag
   contains a comma.
   */
  lemma TagFieldHoldsMailboxOnce(mail: Mail)
    requires BuildDocument(mail).Success?
    requires mail.tags.Some? ==> forall i :: 0 <= i < |mail.tags.value| ==> ',' !in mail.tags.value[i]
    requires ',' !in mail.mailboxName
    ensures var pieces := Split(BuildDocument(mail).value.tag, ',');
            && pieces == MailTags(mail)
            && NoDuplicates(pieces)
            && Occurrences(pieces, Lower(mail.mailboxName)) == 1
  {
    var tags := if mail.tags.Some? then mail.tags.value else [];
    var all := tags + [Lower(mail.mailboxName)];
    var u := MailTags(mail);
    UniqueSpec(all);
    assert ',' !in Lower(mail.mailboxName);
    forall i | 0 <= i < |u| ensures ',' !in u[i] {
      assert u[i] in all;
    }
    assert all[|all| - 1] in u;
    SplitJoin(u, ',');
    OccurrencesOfDistinct(u, Lower(mail.mailboxName));
  }

  /**
   The stored `flags` field, split at the commas, gives back the mail's
   flags deduplicated in first-occurrence order, provided no flag contains a
   comma.
   */
  lemma FlagsFieldDeduplicated(mail: Mail)
    requires BuildDocument(mail).Success?
    requires |mail.flags| > 0
    requires forall i :: 0 <= i < |mail.flags| ==> ',' !in mail.flags[i]
    ensures var pieces := Split(BuildDocument(mail).value.flags, ',');
            && pieces == Unique(mail.flags)
            && NoDuplicates(pieces)
            && InFirstOccurrenceOrder(pieces, mail.flags)
  {
    var u := Unique(mail.flags);
    UniqueSpec(mail.flags);
    forall i | 0 <= i < |u| ensures ',' !in u[i] {
      assert u[i] in mail.flags;
    }
    assert mail.flags[0] in u;
    SplitJoin(u, ',');
    UniqueKeepsFirstOccurrenceOrder(mail.flags);
  }
}
