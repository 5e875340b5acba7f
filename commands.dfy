/**
 * The batched commands of textmagic.go: MessageStatus, DeleteReply and
 * CheckNumber. The remote server is a parameter: server(i, q) is the
 * Response to the i-th call of a command whose list parameter ("ids",
 * "deleted" or "phone") is q. Each method also returns the list parameters
 * it sent, in order, so that which calls were made can be stated.
 * MessageStatus and CheckNumber hand their reply map to sendAPI by value, as
 * textmagic.go does; MessageStatusByPointer and CheckNumberByPointer hand it
 * over by pointer, which is what the merging code evidently expects.
 */
module Commands {
  import opened Wrappers
  import opened Codec
  import opened Batcher
  import opened Api

  const CmdCheckNumber := "check_number"
  const CmdDeleteReply := "delete_reply"
  const CmdMessageStatus := "message_status"

  const MinInt64: int := -0x8000_0000_0000_0000
  const MaxInt64: int := 0x7FFF_FFFF_FFFF_FFFF

  // ----- decoding the keys of a reply -----

  /** strconv.Atoi in base 10: an optional sign, at least one digit, and an int64 value. */
  function Atoi(s: string): (r: Option<int>)
    ensures r.Some? ==> s != [] && MinInt64 <= r.value <= MaxInt64
    ensures r.Some? && r.value < 0 ==> s[0] == '-'
    ensures r.Some? && s[0] != '-' && s[0] != '+' ==> AllDigits(s) && r.value == ValueOf(s)
  {
    var signed := |s| > 0 && (s[0] == '-' || s[0] == '+');
    var body := if signed then s[1..] else s;
    if body == [] || !AllDigits(body) then None
    else
      var v: int := if signed && s[0] == '-' then -(ValueOf(body) as int) else ValueOf(body);
      if MinInt64 <= v <= MaxInt64 then Some(v) else None
  }

  /** The key a reply's string key becomes: Atoi, then Go's uint conversion, which wraps. */
  function KeyOf(s: string): (r: Option<uint64>)
    ensures r.Some? <==> Atoi(s).Some?
    ensures r.Some? && Atoi(s).value >= 0 ==> r.value == Atoi(s).value
    ensures r.Some? && Atoi(s).value < 0 ==> r.value == TwoTo64 + Atoi(s).value
  {
    match Atoi(s)
    case None => None
    case Some(v) => Some(v % TwoTo64)
  }

  /**
   * A rendered identifier reads back as itself when it fits in an int64;
   * larger identifiers are out of Atoi's range and do not read back at all.
   */
  lemma KeyOfDecimal(n: uint64)
    ensures KeyOf(Decimal(n)) == if n <= MaxInt64 then Some(n) else None
  {
    DecimalDigits(n);
    KeyOfUnsigned(Decimal(n));
  }

  /** On a plain digit string Atoi gives its value when that fits an int64. */
  lemma AtoiUnsigned(s: string)
    requires s != [] && AllDigits(s)
    ensures Atoi(s) == if ValueOf(s) <= MaxInt64 then Some(ValueOf(s)) else None
  {
    assert IsDigit(s[0]);
  }

  lemma KeyOfUnsigned(s: string)
    requires s != [] && AllDigits(s)
    ensures KeyOf(s) == if ValueOf(s) <= MaxInt64 then Some(ValueOf(s)) else None
  {
    AtoiUnsigned(s);
  }

  /**
   * Where Atoi and stou differ: Atoi refuses the empty string, accepts a sign
   * and turns a negative value into a large key; on unsigned digit strings
   * within int64 range the two agree.
   */
  lemma KeyOfAgainstStou(s: string)
    ensures KeyOf("") == None && Parsed("") == (0, true)
    ensures KeyOf("-1") == Some(TwoTo64 - 1) && !Parsed("-1").1
    ensures s != [] && AllDigits(s) && ValueOf(s) <= MaxInt64 ==> KeyOf(s) == Some(Parsed(s).0)
  {
    assert "-1"[1..] == "1";
    assert ValueOf("1") == ValueOf("") * 10 + 1;
    if s != [] && AllDigits(s) {
      AtoiUnsigned(s);
    }
  }

  // ----- merging a reply into the result map -----

  /** Storing each entry whose key decodes, in iteration order; a later entry overwrites an earlier one. */
  function MergeEntries<V>(acc: map<uint64, V>, entries: seq<(string, V)>): map<uint64, V>
  {
    if entries == [] then acc
    else
      var m := MergeEntries(acc, entries[..|entries| - 1]);
      var entry := entries[|entries| - 1];
      match KeyOf(entry.0)
      case None => m
      case Some(id) => m[id := entry.1]
  }

  /** Whether some entry's key decodes to id. */
  ghost predicate Names<V>(entries: seq<(string, V)>, id: uint64)
  {
    exists i :: 0 <= i < |entries| && KeyOf(entries[i].0) == Some(id)
  }

  /** The merged map holds exactly the earlier keys and the reply keys that decode. */
  lemma {:induction false} MergeEntriesKeys<V>(acc: map<uint64, V>, entries: seq<(string, V)>, id: uint64)
    ensures id in MergeEntries(acc, entries) <==> id in acc || Names(entries, id)
  {
    if entries != [] {
      var p := entries[..|entries| - 1];
      MergeEntriesKeys(acc, p, id);
      forall j | 0 <= j < |p|
        ensures entries[j] == p[j]
      {
      }
      if Names(p, id) {
        var i :| 0 <= i < |p| && KeyOf(p[i].0) == Some(id);
        assert KeyOf(entries[i].0) == Some(id);
      }
    }
  }

  /** A decoded key maps to the value of the last entry naming it: later entries win. */
  lemma {:induction false} MergeEntriesLastWins<V>(acc: map<uint64, V>, entries: seq<(string, V)>, i: nat)
    requires i < |entries| && KeyOf(entries[i].0).Some?
    requires forall j :: i < j < |entries| ==> KeyOf(entries[j].0) != KeyOf(entries[i].0)
    ensures KeyOf(entries[i].0).value in MergeEntries(acc, entries)
    ensures MergeEntries(acc, entries)[KeyOf(entries[i].0).value] == entries[i].1
  {
    var p := entries[..|entries| - 1];
    if i < |p| {
      assert p[i] == entries[i];
      MergeEntriesLastWins(acc, p, i);
    }
  }

  /** A key no entry decodes to keeps its earlier value. */
  lemma {:induction false} MergeEntriesKeeps<V>(acc: map<uint64, V>, entries: seq<(string, V)>, id: uint64)
    requires id in acc && !Names(entries, id)
    ensures id in MergeEntries(acc, entries) && MergeEntries(acc, entries)[id] == acc[id]
  {
    if entries != [] {
      var p := entries[..|entries| - 1];
      forall j | 0 <= j < |p|
        ensures KeyOf(p[j].0) != Some(id)
      {
        assert p[j] == entries[j];
      }
      MergeEntriesKeeps(acc, p, id);
      assert KeyOf(entries[|entries| - 1].0) != Some(id);
    }
  }

  /** The loop over a decoded reply map that fills the result map. */
  method MergeInto<V>(acc: map<uint64, V>, entries: seq<(string, V)>) returns (r: map<uint64, V>)
    ensures r == MergeEntries(acc, entries)
  {
    r := acc;
    for i := 0 to |entries|
      invariant r == MergeEntries(acc, entries[..i])
    {
      assert entries[..i + 1][..i] == entries[..i];
      var id := KeyOf(entries[i].0);
      if id.Some? {
        r := r[id.value := entries[i].1];
      }
    }
    assert entries[..|entries|] == entries;
  }

  // ----- batch outcomes -----

  /** The outcome of the call for each batch, were every batch sent, with the reply target handed over as given. */
  function Outcomes<P>(cmd: string, batches: seq<seq<uint64>>, server: (nat, string) -> Response<P>, target: Target<P>)
    : seq<Result<P, Error>>
  {
    seq(|batches|, i requires 0 <= i < |batches| => SendAPI(cmd, server(i, Joined(batches[i])), target))
  }

  /** One batch call: join the batch's identifiers and send them; its outcome is the batch's entry in Outcomes. */
  method CallBatch<P>(cmd: string, batches: seq<seq<uint64>>, i: nat, server: (nat, string) -> Response<P>,
      target: Target<P>)
    returns (q: string, r: Result<P, Error>)
    requires i < |batches|
    ensures q == Joined(batches[i])
    ensures r == Outcomes(cmd, batches, server, target)[i]
  {
    q := JoinUints(batches[i]);
    r := SendAPI(cmd, server(i, q), target);
  }

  /** The index of the first failed outcome, or the number of outcomes when none failed. */
  function FirstFailure<P>(outs: seq<Result<P, Error>>): (k: nat)
    ensures k <= |outs|
    ensures forall j :: 0 <= j < k ==> outs[j].Success?
    ensures k < |outs| ==> outs[k].Failure?
  {
    if outs == [] || outs[0].Failure? then 0 else 1 + FirstFailure(outs[1..])
  }

  /** How many calls a batch loop makes: every batch up to and including the first failure. */
  function Attempted(k: nat, n: nat): nat
  {
    if k < n then k + 1 else n
  }

  /** The list parameters of the given batches, in order. */
  function Queries(batches: seq<seq<uint64>>): (q: seq<string>)
    ensures |q| == |batches|
  {
    seq(|batches|, i requires 0 <= i < |batches| => Joined(batches[i]))
  }

  /** The error of the first failed batch, if any. */
  function FirstError<P>(outs: seq<Result<P, Error>>): Option<Error>
  {
    var k := FirstFailure(outs);
    if k < |outs| then Some(outs[k].error) else None
  }

  lemma QueriesSnoc(batches: seq<seq<uint64>>, i: nat)
    requires i < |batches|
    ensures Queries(batches[..i + 1]) == Queries(batches[..i]) + [Joined(batches[i])]
  {
  }

  /** The first failure is at i when every earlier outcome succeeded and the one at i failed. */
  lemma FirstFailureAt<P>(outs: seq<Result<P, Error>>, i: nat)
    requires i <= |outs| && forall j :: 0 <= j < i ==> outs[j].Success?
    requires i < |outs| ==> outs[i].Failure?
    ensures FirstFailure(outs) == i
  {
  }

  /** A success at i, with no failure before it, moves the first failure past i. */
  lemma FirstFailurePast<P>(outs: seq<Result<P, Error>>, i: nat)
    requires i < |outs| && i <= FirstFailure(outs) && outs[i].Success?
    ensures i < FirstFailure(outs)
  {
  }

  /** A later outcome than the first failure has no influence on where the first failure is. */
  lemma FirstFailureOfPrefix<P>(o1: seq<Result<P, Error>>, o2: seq<Result<P, Error>>)
    requires |o1| == |o2|
    requires forall j :: 0 <= j < Attempted(FirstFailure(o1), |o1|) ==> o1[j] == o2[j]
    ensures FirstFailure(o2) == FirstFailure(o1)
    ensures FirstError(o2) == FirstError(o1)
  {
  }

  // ----- MessageStatus -----

  /** The statuses merged from the first k batch replies, in batch order. */
  function MergedStatuses<V>(outs: seq<Result<seq<(string, V)>, Error>>, k: nat): map<uint64, V>
    requires k <= |outs| && forall j :: 0 <= j < k ==> outs[j].Success?
  {
    if k == 0 then map[] else MergeEntries(MergedStatuses(outs, k - 1), outs[k - 1].value)
  }

  /**
   * What the MessageStatus loop returns, given how each batch's reply map is
   * handed to sendAPI: the merged statuses, the first error, and the "ids" sent.
   */
  function MessageStatusResult<V>(ids: seq<uint64>, server: (nat, string) -> Response<seq<(string, V)>>,
      target: Target<seq<(string, V)>>)
    : (map<uint64, V>, Option<Error>, seq<string>)
  {
    var batches := Chunks(ids, MaxInSlice);
    var outs := Outcomes(CmdMessageStatus, batches, server, target);
    var k := FirstFailure(outs);
    (MergedStatuses(outs, k), FirstError(outs), Queries(batches[..Attempted(k, |batches|)]))
  }

  /**
   * The loop of MessageStatus: one call per batch of at most 100 identifiers,
   * in order, merging each successful reply; at the first failure it stops and
   * returns what it has merged so far with that error.
   */
  method StatusBatches<V>(ids: seq<uint64>, server: (nat, string) -> Response<seq<(string, V)>>,
      target: Target<seq<(string, V)>>)
    returns (statuses: map<uint64, V>, err: Option<Error>, calls: seq<string>)
    ensures (statuses, err, calls) == MessageStatusResult(ids, server, target)
  {
    statuses := map[];
    calls := [];
    var batches := SplitSlice(ids, MaxInSlice);
    ghost var outs := Outcomes(CmdMessageStatus, batches, server, target);
    var i := 0;
    while i < |batches|
      invariant 0 <= i <= |batches|
      invariant i <= FirstFailure(outs)
      invariant calls == Queries(batches[..i])
      invariant statuses == MergedStatuses(outs, i)
    {
      var messageIds, r := CallBatch(CmdMessageStatus, batches, i, server, target);
      calls := calls + [messageIds];
      QueriesSnoc(batches, i);
      if r.Failure? {
        err := Some(r.error);
        MessageStatusResultAt(ids, server, target, i);
        return;
      }
      FirstFailurePast(outs, i);
      statuses := MergeInto(statuses, r.value);
      i := i + 1;
    }
    err := None;
    assert batches[..i] == batches;
    MessageStatusResultAt(ids, server, target, i);
  }

  /** The result of the batch loop once it has stopped after k successful calls. */
  lemma MessageStatusResultAt<V>(ids: seq<uint64>, server: (nat, string) -> Response<seq<(string, V)>>,
      target: Target<seq<(string, V)>>, k: nat)
    requires var outs := Outcomes(CmdMessageStatus, Chunks(ids, MaxInSlice), server, target);
             k <= |outs| && (forall j :: 0 <= j < k ==> outs[j].Success?) && (k < |outs| ==> outs[k].Failure?)
    ensures var batches := Chunks(ids, MaxInSlice);
            var outs := Outcomes(CmdMessageStatus, batches, server, target);
            MessageStatusResult(ids, server, target)
            == (MergedStatuses(outs, k), if k < |outs| then Some(outs[k].error) else None,
                Queries(batches[..Attempted(k, |batches|)]))
  {
    FirstFailureAt(Outcomes(CmdMessageStatus, Chunks(ids, MaxInSlice), server, target), k);
  }

  /**
   * MessageStatus as written: each batch's reply map is handed to sendAPI by
   * value, so the decoder never fills it, nothing is ever merged, and the
   * result map is empty whatever the server answers.
   */
  method MessageStatus<V>(ids: seq<uint64>, server: (nat, string) -> Response<seq<(string, V)>>)
    returns (statuses: map<uint64, V>, err: Option<Error>, calls: seq<string>)
    ensures (statuses, err, calls) == MessageStatusResult(ids, server, ByValue([]))
    ensures statuses == map[]
  {
    statuses, err, calls := StatusBatches(ids, server, ByValue([]));
    MessageStatusNeverMerges(ids, server);
  }

  /** MessageStatus with each batch's reply map handed over by pointer, so that the decoder fills it. */
  method MessageStatusByPointer<V>(ids: seq<uint64>, server: (nat, string) -> Response<seq<(string, V)>>)
    returns (statuses: map<uint64, V>, err: Option<Error>, calls: seq<string>)
    ensures (statuses, err, calls) == MessageStatusResult(ids, server, ByPointer)
  {
    statuses, err, calls := StatusBatches(ids, server, ByPointer);
  }

  lemma {:induction false} MergedStatusesUnfilled<V>(outs: seq<Result<seq<(string, V)>, Error>>, k: nat)
    requires k <= |outs| && forall j :: 0 <= j < k ==> outs[j] == Success([])
    ensures MergedStatuses(outs, k) == map[]
  {
    if k > 0 {
      MergedStatusesUnfilled(outs, k - 1);
    }
  }

  /** With reply maps passed by value, MessageStatus returns an empty map for every server. */
  lemma MessageStatusNeverMerges<V>(ids: seq<uint64>, server: (nat, string) -> Response<seq<(string, V)>>)
    ensures MessageStatusResult(ids, server, ByValue([])).0 == map[]
  {
    var batches := Chunks(ids, MaxInSlice);
    var outs := Outcomes(CmdMessageStatus, batches, server, ByValue([]));
    var k := FirstFailure(outs);
    forall j | 0 <= j < k
      ensures outs[j] == Success([])
    {
      assert outs[j] == SendAPI(CmdMessageStatus, server(j, Joined(batches[j])), ByValue([]));
    }
    MergedStatusesUnfilled(outs, k);
  }

  /**
   * With reply maps passed by pointer, a key is in the result exactly when an
   * entry of some server reply before the first failure decodes to it.
   */
  lemma MessageStatusByPointerKeys<V>(ids: seq<uint64>, server: (nat, string) -> Response<seq<(string, V)>>, id: uint64)
    ensures id in MessageStatusResult(ids, server, ByPointer).0
            <==> exists j: nat :: j < FirstFailure(Outcomes(CmdMessageStatus, Chunks(ids, MaxInSlice), server, ByPointer))
                   && Names(server(j, Joined(Chunks(ids, MaxInSlice)[j])).payload, id)
  {
    var batches := Chunks(ids, MaxInSlice);
    var outs := Outcomes(CmdMessageStatus, batches, server, ByPointer);
    var k := FirstFailure(outs);
    assert MessageStatusResult(ids, server, ByPointer).0 == MergedStatuses(outs, k);
    MergedStatusesKeys(outs, k, id);
    if id in MergedStatuses(outs, k) {
      var j :| 0 <= j < k && Names(outs[j].value, id);
      PointerOutcome(CmdMessageStatus, batches, server, j);
      assert Names(server(j, Joined(batches[j])).payload, id);
    }
    if exists j: nat :: j < k && Names(server(j, Joined(batches[j])).payload, id) {
      var j: nat :| j < k && Names(server(j, Joined(batches[j])).payload, id);
      PointerOutcome(CmdMessageStatus, batches, server, j);
      assert Names(outs[j].value, id);
      assert id in MergedStatuses(outs, k);
      assert j < FirstFailure(Outcomes(CmdMessageStatus, Chunks(ids, MaxInSlice), server, ByPointer))
             && Names(server(j, Joined(Chunks(ids, MaxInSlice)[j])).payload, id);
    } else {
      assert !exists j: nat :: j < FirstFailure(Outcomes(CmdMessageStatus, Chunks(ids, MaxInSlice), server, ByPointer))
                   && Names(server(j, Joined(Chunks(ids, MaxInSlice)[j])).payload, id);
    }
  }

  /** A successful outcome of a call whose target is passed by pointer is the server's reply body. */
  lemma PointerOutcome<P>(cmd: string, batches: seq<seq<uint64>>, server: (nat, string) -> Response<P>, j: nat)
    requires j < |batches| && Outcomes(cmd, batches, server, ByPointer)[j].Success?
    ensures Outcomes(cmd, batches, server, ByPointer)[j].value == server(j, Joined(batches[j])).payload
  {
  }

  /** A server that answers every call with a clean reply carrying the given body. */
  function CleanServer<P>(payload: P): (nat, string) -> Response<P>
  {
    (i: nat, q: string) => Response(None, StatusOK, Success(Envelope(0, "")), payload, true)
  }

  /** The reply {"123": v} merged into an empty map. */
  lemma MergeOneReply<V>(v: V)
    ensures MergeEntries(map[], [("123", v)]) == map[123 := v]
  {
    assert "123"[..2] == "12" && "12"[..1] == "1" && "1"[..0] == "";
    assert ValueOf("123") == 123;
    KeyOfUnsigned("123");
    assert [("123", v)][..0] == [];
  }

  /**
   * Identifier 123 whose call succeeds with {"123": v}: as written the result
   * is empty; with the map passed by pointer it is {123: v}.
   */
  lemma MessageStatusDropsReply<V>(v: V)
    ensures MessageStatusResult([123], CleanServer([("123", v)]), ByValue([])).0 == map[]
    ensures MessageStatusResult([123], CleanServer([("123", v)]), ByPointer).0 == map[123 := v]
  {
    var ids: seq<uint64> := [123];
    var server := CleanServer([("123", v)]);
    MessageStatusNeverMerges(ids, server);
    assert Chunks(ids, MaxInSlice) == [ids];
    var outs := Outcomes(CmdMessageStatus, [ids], server, ByPointer);
    assert outs[0] == SendAPI(CmdMessageStatus, server(0, Joined(ids)), ByPointer);
    assert outs[0] == Success([("123", v)]);
    FirstFailureAt(outs, 1);
    assert MergedStatuses(outs, 1) == MergeEntries(map[], [("123", v)]);
    assert MessageStatusResult(ids, server, ByPointer).0 == MergedStatuses(outs, 1);
    MergeOneReply(v);
  }

  /** Whether two servers give the same reply to each of the first n batch calls. */
  ghost predicate SameReplies<P>(s1: (nat, string) -> Response<P>, s2: (nat, string) -> Response<P>,
      batches: seq<seq<uint64>>, n: nat)
    requires n <= |batches|
  {
    forall i :: 0 <= i < n ==> s1(i, Joined(batches[i])) == s2(i, Joined(batches[i]))
  }

  /** Replies to calls after the first failure, and the calls themselves, never happen. */
  lemma MessageStatusIgnoresLaterReplies<V>(ids: seq<uint64>,
      s1: (nat, string) -> Response<seq<(string, V)>>, s2: (nat, string) -> Response<seq<(string, V)>>,
      target: Target<seq<(string, V)>>)
    requires var batches := Chunks(ids, MaxInSlice);
             var k := FirstFailure(Outcomes(CmdMessageStatus, batches, s1, target));
             SameReplies(s1, s2, batches, Attempted(k, |batches|))
    ensures MessageStatusResult(ids, s1, target) == MessageStatusResult(ids, s2, target)
  {
    var batches := Chunks(ids, MaxInSlice);
    var o1 := Outcomes(CmdMessageStatus, batches, s1, target);
    var o2 := Outcomes(CmdMessageStatus, batches, s2, target);
    forall j | 0 <= j < Attempted(FirstFailure(o1), |o1|)
      ensures o1[j] == o2[j]
    {
      assert o1[j] == SendAPI(CmdMessageStatus, s1(j, Joined(batches[j])), target);
      assert o2[j] == SendAPI(CmdMessageStatus, s2(j, Joined(batches[j])), target);
      assert s1(j, Joined(batches[j])) == s2(j, Joined(batches[j]));
    }
    FirstFailureOfPrefix(o1, o2);
    MergedStatusesPrefix(o1, o2, FirstFailure(o1));
  }

  lemma {:induction false} MergedStatusesPrefix<V>(o1: seq<Result<seq<(string, V)>, Error>>,
      o2: seq<Result<seq<(string, V)>, Error>>, k: nat)
    requires k <= |o1| && k <= |o2|
    requires forall j :: 0 <= j < k ==> o1[j].Success? && o1[j] == o2[j]
    ensures MergedStatuses(o1, k) == MergedStatuses(o2, k)
  {
    if k > 0 {
      MergedStatusesPrefix(o1, o2, k - 1);
    }
  }

  /** A key is in the result exactly when some reply before the first failure has an entry decoding to it. */
  lemma {:induction false} MergedStatusesKeys<V>(outs: seq<Result<seq<(string, V)>, Error>>, k: nat, id: uint64)
    requires k <= |outs| && forall j :: 0 <= j < k ==> outs[j].Success?
    ensures id in MergedStatuses(outs, k) <==> exists j :: 0 <= j < k && Names(outs[j].value, id)
  {
    if k > 0 {
      MergedStatusesKeys(outs, k - 1, id);
      MergeEntriesKeys(MergedStatuses(outs, k - 1), outs[k - 1].value, id);
    }
  }

  /**
   * 250 identifiers whose calls all succeed are sent as three calls, with the
   * first 100, the next 100 and the last 50 identifiers, in that order.
   */
  lemma MessageStatusTwoHundredFifty<V>(ids: seq<uint64>, server: (nat, string) -> Response<seq<(string, V)>>,
      target: Target<seq<(string, V)>>)
    requires |ids| == 250
    requires FirstError(Outcomes(CmdMessageStatus, Chunks(ids, MaxInSlice), server, target)) == None
    ensures MessageStatusResult(ids, server, target).1 == None
    ensures MessageStatusResult(ids, server, target).2 == [Joined(ids[..100]), Joined(ids[100..200]), Joined(ids[200..])]
  {
    var batches := Chunks(ids, MaxInSlice);
    TwoHundredFiftyIds(ids);
    assert batches[..3] == batches;
  }

  // ----- DeleteReply -----

  /** The identifiers reported deleted by the first k batch replies, concatenated in batch order. */
  function DeletedUpTo(outs: seq<Result<seq<uint64>, Error>>, k: nat): seq<uint64>
    requires k <= |outs| && forall j :: 0 <= j < k ==> outs[j].Success?
  {
    if k == 0 then [] else DeletedUpTo(outs, k - 1) + outs[k - 1].value
  }

  /** What DeleteReply returns: the concatenated deletions, the first error, and the "deleted" lists sent. */
  function DeleteReplyResult(ids: seq<uint64>, server: (nat, string) -> Response<seq<uint64>>)
    : (seq<uint64>, Option<Error>, seq<string>)
  {
    var batches := Chunks(ids, MaxInSlice);
    var outs := Outcomes(CmdDeleteReply, batches, server, ByPointer);
    var k := FirstFailure(outs);
    (DeletedUpTo(outs, k), FirstError(outs), Queries(batches[..Attempted(k, |batches|)]))
  }

  /**
   * DeleteReply: one call per batch of at most 100 identifiers, in order,
   * appending each reply's deleted list; at the first failure it stops and
   * returns what it has appended so far with that error.
   */
  method DeleteReply(ids: seq<uint64>, server: (nat, string) -> Response<seq<uint64>>)
    returns (deleted: seq<uint64>, err: Option<Error>, calls: seq<string>)
    ensures (deleted, err, calls) == DeleteReplyResult(ids, server)
  {
    deleted := [];
    calls := [];
    var batches := SplitSlice(ids, MaxInSlice);
    ghost var outs := Outcomes(CmdDeleteReply, batches, server, ByPointer);
    var i := 0;
    while i < |batches|
      invariant 0 <= i <= |batches|
      invariant i <= FirstFailure(outs)
      invariant calls == Queries(batches[..i])
      invariant deleted == DeletedUpTo(outs, i)
    {
      var list, r := CallBatch(CmdDeleteReply, batches, i, server, ByPointer);
      calls := calls + [list];
      QueriesSnoc(batches, i);
      if r.Failure? {
        err := Some(r.error);
        DeleteReplyResultAt(ids, server, i);
        return;
      }
      FirstFailurePast(outs, i);
      deleted := deleted + r.value;
      i := i + 1;
    }
    err := None;
    assert batches[..i] == batches;
    DeleteReplyResultAt(ids, server, i);
  }

  /** The result of the batch loop once it has stopped after k successful calls. */
  lemma DeleteReplyResultAt(ids: seq<uint64>, server: (nat, string) -> Response<seq<uint64>>, k: nat)
    requires var outs := Outcomes(CmdDeleteReply, Chunks(ids, MaxInSlice), server, ByPointer);
             k <= |outs| && (forall j :: 0 <= j < k ==> outs[j].Success?) && (k < |outs| ==> outs[k].Failure?)
    ensures var batches := Chunks(ids, MaxInSlice);
            var outs := Outcomes(CmdDeleteReply, batches, server, ByPointer);
            DeleteReplyResult(ids, server)
            == (DeletedUpTo(outs, k), if k < |outs| then Some(outs[k].error) else None,
                Queries(batches[..Attempted(k, |batches|)]))
  {
    FirstFailureAt(Outcomes(CmdDeleteReply, Chunks(ids, MaxInSlice), server, ByPointer), k);
  }

  /** The concatenation DeleteReply builds is the flattening of the replies' lists. */
  lemma {:induction false} DeletedUpToIsFlatten(outs: seq<Result<seq<uint64>, Error>>, k: nat)
    requires k <= |outs| && forall j :: 0 <= j < k ==> outs[j].Success?
    ensures DeletedUpTo(outs, k) == Flatten(seq(k, j requires 0 <= j < k => outs[j].value))
  {
    if k > 0 {
      DeletedUpToIsFlatten(outs, k - 1);
      var lists := seq(k, j requires 0 <= j < k => outs[j].value);
      assert lists == lists[..k - 1] + [outs[k - 1].value];
      assert lists[..k - 1] == seq(k - 1, j requires 0 <= j < k - 1 => outs[j].value);
      FlattenAppend(lists[..k - 1], outs[k - 1].value);
    }
  }

  /** A reply that passes every check of sendAPI and carries the given payload. */
  ghost predicate CleanReply<P>(resp: Response<P>, payload: P)
  {
    resp.transport.None? && resp.statusCode == StatusOK
    && resp.envelope.Success? && resp.envelope.value.errorCode == 0
    && resp.payload == payload
  }

  /** Whether the server accepts every batch call and reports that batch as its payload. */
  ghost predicate EchoesBatches(server: (nat, string) -> Response<seq<uint64>>, batches: seq<seq<uint64>>)
  {
    forall i :: 0 <= i < |batches| ==> CleanReply(server(i, Joined(batches[i])), batches[i])
  }

  /**
   * When every call succeeds and each reply reports its whole batch deleted,
   * DeleteReply returns exactly the identifiers it was given, in order, after
   * one call per batch.
   */
  lemma EchoServerDeletesAll(ids: seq<uint64>, server: (nat, string) -> Response<seq<uint64>>)
    requires EchoesBatches(server, Chunks(ids, MaxInSlice))
    ensures DeleteReplyResult(ids, server) == (ids, None, Queries(Chunks(ids, MaxInSlice)))
  {
    var batches := Chunks(ids, MaxInSlice);
    var outs := Outcomes(CmdDeleteReply, batches, server, ByPointer);
    var n := |batches|;
    forall j | 0 <= j < n
      ensures outs[j] == Success(batches[j])
    {
      var resp := server(j, Joined(batches[j]));
      assert outs[j] == SendAPI(CmdDeleteReply, resp, ByPointer);
      assert CleanReply(resp, batches[j]);
    }
    assert FirstFailure(outs) == n;
    DeletedUpToIsFlatten(outs, n);
    assert seq(n, j requires 0 <= j < n => outs[j].value) == batches;
    ChunksConcat(ids, MaxInSlice);
    assert batches[..n] == batches;
  }

  // ----- CheckNumber -----

  /**
   * The body of CheckNumber: a single call with every number joined, however
   * many there are; on failure no map (nil) and the error, otherwise what the
   * reply map holds, keyed by decoded number, skipping keys that do not decode.
   */
  method CheckNumberWith<V>(numbers: seq<uint64>, server: (nat, string) -> Response<seq<(string, V)>>,
      target: Target<seq<(string, V)>>)
    returns (result: Option<map<uint64, V>>, err: Option<Error>, calls: seq<string>)
    ensures calls == [Joined(numbers)]
    ensures match SendAPI(CmdCheckNumber, server(0, Joined(numbers)), target)
            case Failure(e) => result == None && err == Some(e)
            case Success(entries) => result == Some(MergeEntries(map[], entries)) && err == None
  {
    var phone := JoinUints(numbers);
    calls := [phone];
    var r := SendAPI(CmdCheckNumber, server(0, phone), target);
    if r.Failure? {
      return None, Some(r.error), calls;
    }
    var toRet := MergeInto(map[], r.value);
    result, err := Some(toRet), None;
  }

  /**
   * CheckNumber as written: the reply map is handed to sendAPI by value, so on
   * success the result is an empty, non-nil map whatever the server answers.
   */
  method CheckNumber<V>(numbers: seq<uint64>, server: (nat, string) -> Response<seq<(string, V)>>)
    returns (result: Option<map<uint64, V>>, err: Option<Error>, calls: seq<string>)
    ensures calls == [Joined(numbers)]
    ensures match SendAPI(CmdCheckNumber, server(0, Joined(numbers)), ByValue([]))
            case Failure(e) => result == None && err == Some(e)
            case Success(_) => result == Some(map[]) && err == None
  {
    result, err, calls := CheckNumberWith(numbers, server, ByValue([]));
  }

  /** CheckNumber with the reply map handed over by pointer, so that the decoder fills it. */
  method CheckNumberByPointer<V>(numbers: seq<uint64>, server: (nat, string) -> Response<seq<(string, V)>>)
    returns (result: Option<map<uint64, V>>, err: Option<Error>, calls: seq<string>)
    ensures calls == [Joined(numbers)]
    ensures match SendAPI(CmdCheckNumber, server(0, Joined(numbers)), ByPointer)
            case Failure(e) => result == None && err == Some(e)
            case Success(entries) => result == Some(MergeEntries(map[], entries)) && err == None
  {
    result, err, calls := CheckNumberWith(numbers, server, ByPointer);
  }

  /**
   * Number 123 whose call succeeds with {"123": v}: as written the result is
   * the empty map; with the map passed by pointer it is {123: v}.
   */
  lemma CheckNumberDropsReply<V>(v: V)
    ensures SendAPI(CmdCheckNumber, CleanServer([("123", v)])(0, Joined([123])), ByValue([])) == Success([])
    ensures var r := SendAPI(CmdCheckNumber, CleanServer([("123", v)])(0, Joined([123])), ByPointer);
            r.Success? && MergeEntries(map[], r.value) == map[123 := v]
  {
    MergeOneReply(v);
  }
}
