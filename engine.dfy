/**
 The search engine's writes: the index as a map from `ident` to document,
 updated by upsert (`update_document` on the unique `ident` field) and by
 delete-by-ident, with a count of committed writer sessions.
 */
module Engine {
  import opened Wrappers
  import opened Documents

  type Index = map<string, Doc>

  /** Every document is stored under its own `ident`, the schema's unique key. */
  predicate KeyedByIdent(index: Index)
  {
    forall k :: k in index ==> index[k].ident == k
  }

  /** What `index_mails` does: commits and calls back, or fails and re-raises. */
  datatype BatchOutcome = Done(calledBack: bool) | Failed(error: BuildError)

  /** The outcome of building each mail's document, in batch order. */
  function Builds(mails: seq<Mail>): (r: seq<Result<Doc, BuildError>>)
    ensures |r| == |mails|
    ensures forall i :: 0 <= i < |mails| ==> r[i] == BuildDocument(mails[i])
  {
    seq(|mails|, i requires 0 <= i < |mails| => BuildDocument(mails[i]))
  }

  /**
   One writer session over a batch: the built documents are upserted in
   order; the first mail whose document could not be built fails the whole
   batch.
   */
  function IndexAll(index: Index, builds: seq<Result<Doc, BuildError>>): Result<Index, BuildError>
    decreases |builds|
  {
    if builds == [] then Success(index)
    else
      match IndexAll(index, builds[..|builds| - 1])
      case Failure(e) => Failure(e)
      case Success(pending) =>
        match builds[|builds| - 1]
        case Failure(e) => Failure(e)
        case Success(doc) => Success(pending[doc.ident := doc])
  }

  /** The last built document in the batch whose ident is `k`, if any. */
  function LastDocFor(builds: seq<Result<Doc, BuildError>>, k: string): Option<Doc>
    decreases |builds|
  {
    if builds == [] then None
    else
      var d := builds[|builds| - 1];
      if d.Success? && d.value.ident == k then Some(d.value) else LastDocFor(builds[..|builds| - 1], k)
  }

  /** A batch succeeds exactly when every mail's document could be built. */
  lemma {:induction false} IndexAllSucceedsIff(index: Index, builds: seq<Result<Doc, BuildError>>)
    ensures IndexAll(index, builds).Success? <==> forall i :: 0 <= i < |builds| ==> builds[i].Success?
    decreases |builds|
  {
    if builds != [] {
      var init := builds[..|builds| - 1];
      IndexAllSucceedsIff(index, init);
      assert forall i :: 0 <= i < |init| ==> init[i] == builds[i];
    }
  }

  /** A failing batch fails with the error of its first mail that cannot be built. */
  lemma FirstBadMailFailsBatch(index: Index, builds: seq<Result<Doc, BuildError>>, i: nat)
    requires i < |builds| && builds[i].Failure?
    requires forall j :: 0 <= j < i ==> builds[j].Success?
    ensures IndexAll(index, builds) == Failure(builds[i].error)
  {
    var init := builds[..i];
    assert forall j :: 0 <= j < |init| ==> init[j] == builds[j];
    IndexAllSucceedsIff(index, init);
    var step := builds[..i + 1];
    assert step[..|step| - 1] == init && step[|step| - 1] == builds[i];
    FailureKept(index, builds, i + 1);
  }

  /** For mails: the batch is committed exactly when every mail has the keys its document needs. */
  lemma BatchSucceedsIffKeysPresent(index: Index, mails: seq<Mail>)
    ensures IndexAll(index, Builds(mails)).Success? <==> forall i :: 0 <= i < |mails| ==> HasRequiredKeys(mails[i])
  {
    IndexAllSucceedsIff(index, Builds(mails));
  }

  /**
   After a successful batch, the document under ident `k` is the last one
   the batch built with that ident; an ident the batch does not write keeps
   its old document, or stays absent.
   */
  lemma {:induction false} IndexAllAt(index: Index, builds: seq<Result<Doc, BuildError>>, k: string)
    requires IndexAll(index, builds).Success?
    ensures var r := IndexAll(index, builds).value;
            && (LastDocFor(builds, k).Some? ==> k in r && r[k] == LastDocFor(builds, k).value)
            && (LastDocFor(builds, k).None? ==> (k in r <==> k in index) && (k in index ==> r[k] == index[k]))
    decreases |builds|
  {
    if builds != [] {
      IndexAllAt(index, builds[..|builds| - 1], k);
    }
  }

  class SearchEngine {
    /** The committed index, keyed by `ident`. */
    var index: Index
    /** How many writer sessions have committed. */
    var commits: nat

    ghost predicate Valid()
      reads this
    {
      KeyedByIdent(index)
    }

    constructor ()
      ensures index == map[] && commits == 0
      ensures Valid()
    {
      index := map[];
      commits := 0;
    }

    /**
     `index_mail`: one writer session with one upsert. A document that
     cannot be built aborts the session: nothing changes and nothing is
     committed.
     */
    method IndexMail(mail: Mail) returns (r: Result<Doc, BuildError>)
      requires Valid()
      modifies this
      ensures Valid()
      ensures r == BuildDocument(mail)
      ensures r.Success? ==> index == old(index)[r.value.ident := r.value] && commits == old(commits) + 1
      ensures r.Success? ==> forall k :: k != r.value.ident ==> (k in index <==> k in old(index))
      ensures r.Success? ==> forall k :: k != r.value.ident && k in old(index) ==> index[k] == old(index)[k]
      ensures r.Failure? ==> index == old(index) && commits == old(commits)
    {
      r := BuildDocument(mail);
      if r.Success? {
        index := index[r.value.ident := r.value];
        commits := commits + 1;
      }
    }

    /**
     `index_mails`: one writer session for the whole batch. The session
     commits only when every mail was indexed; only then is the callback,
     if given, called, once. A failing mail aborts the session, leaving the
     index as it was, and the error is passed on.
     */
    method IndexMails(mails: seq<Mail>, callback: bool) returns (out: BatchOutcome)
      requires Valid()
      modifies this
      ensures Valid()
      ensures var batch := IndexAll(old(index), Builds(mails));
              batch.Success? ==> index == batch.value && commits == old(commits) + 1 && out == Done(callback)
      ensures var batch := IndexAll(old(index), Builds(mails));
              batch.Failure? ==> index == old(index) && commits == old(commits) && out == Failed(batch.error)
    {
      ghost var builds := Builds(mails);
      var pending := index;
      var failure: Option<BuildError> := None;
      var i := 0;
      while i < |mails| && failure.None?
        invariant 0 <= i <= |mails|
        invariant failure.None? ==> IndexAll(old(index), builds[..i]) == Success(pending)
        invariant failure.Some? ==> IndexAll(old(index), builds) == Failure(failure.value)
        invariant index == old(index) && commits == old(commits)
      {
        var d := BuildDocument(mails[i]);
        assert builds[i] == d;
        IndexAllStep(old(index), builds, i, pending);
        if d.Failure? {
          failure := Some(d.error);
        } else {
          pending := pending[d.value.ident := d.value];
        }
        i := i + 1;
      }
      if failure.Some? {
        out := Failed(failure.value);
      } else {
        assert builds[..i] == builds;
        IndexAllKeepsIdents(index, builds);
        index := pending;
        commits := commits + 1;
        out := Done(callback);
      }
    }

    /**
     `remove_from_index`: deletes the document with this ident, if there is
     one, and commits in every case.
     */
    method RemoveFromIndex(mailId: string)
      requires Valid()
      modifies this
      ensures Valid()
      ensures index == old(index) - {mailId}
      ensures mailId !in index
      ensures forall k :: k != mailId ==> (k in index <==> k in old(index))
      ensures forall k :: k != mailId && k in old(index) ==> index[k] == old(index)[k]
      ensures mailId !in old(index) ==> index == old(index)
      ensures commits == old(commits) + 1
    {
      index := index - {mailId};
      commits := commits + 1;
    }
  }

  /** A batch keeps every document under its own ident. */
  lemma {:induction false} IndexAllKeepsIdents(index: Index, builds: seq<Result<Doc, BuildError>>)
    requires KeyedByIdent(index) && IndexAll(index, builds).Success?
    ensures KeyedByIdent(IndexAll(index, builds).value)
    decreases |builds|
  {
    if builds != [] {
      var init := builds[..|builds| - 1];
      IndexAllKeepsIdents(index, init);
    }
  }

  /** One more mail of the batch: its document is upserted, or the batch fails with its error. */
  lemma IndexAllStep(index: Index, builds: seq<Result<Doc, BuildError>>, i: nat, pending: Index)
    requires i < |builds| && IndexAll(index, builds[..i]) == Success(pending)
    ensures builds[i].Success? ==>
              IndexAll(index, builds[..i + 1]) == Success(pending[builds[i].value.ident := builds[i].value])
    ensures builds[i].Failure? ==> IndexAll(index, builds) == Failure(builds[i].error)
  {
    var step := builds[..i + 1];
    assert step[..|step| - 1] == builds[..i] && step[|step| - 1] == builds[i];
    if builds[i].Failure? {
      FailureKept(index, builds, i + 1);
    }
  }

  /** Once a prefix of the batch fails, the whole batch fails with the same error. */
  lemma {:induction false} FailureKept(index: Index, builds: seq<Result<Doc, BuildError>>, n: nat)
    requires n <= |builds| && IndexAll(index, builds[..n]).Failure?
    ensures IndexAll(index, builds) == IndexAll(index, builds[..n])
    decreases |builds| - n
  {
    if n < |builds| {
      assert builds[..n + 1][..n] == builds[..n];
      FailureKept(index, builds, n + 1);
    } else {
      assert builds[..n] == builds;
    }
  }
}
