/** Cutting a list into batches, and the SetVariables loop of the boot handler, which does so one message at a time. */
module Batches {
  import opened Options

  function Min(a: int, b: int): int {
    if a < b then a else b
  }

  // Slices as JavaScript cuts them: a negative bound counts from the end, and every bound is clamped.

  function Bound(length: nat, at: int): nat {
    if at >= 0 then Min(at, length) else if length + at > 0 then length + at else 0
  }

  /** `array.slice(0, end)` */
  function Front<T>(list: seq<T>, end: int): seq<T> {
    list[..Bound(|list|, end)]
  }

  /** `array.slice(start)` */
  function Back<T>(list: seq<T>, start: int): seq<T> {
    list[Bound(|list|, start)..]
  }

  /** A list falls into the two slices at any bound: one that is not negative is the length of the first, at most that
      of the list; one that is negative is what the second has, at most the list, and the first lacks. */
  lemma SlicesMakeUpList<T>(list: seq<T>, at: int)
    ensures Front(list, at) + Back(list, at) == list
    ensures at >= 0 ==> |Front(list, at)| == if at <= |list| then at else |list|
    ensures at < 0 ==> |Back(list, at)| == if -at <= |list| then -at else |list|
  {
  }

  // Batches.

  function Chunks<T>(list: seq<T>, size: nat): (chunks: seq<seq<T>>)
    requires size > 0
    decreases |list|
  {
    if list == [] then [] else [Front(list, size)] + Chunks(Back(list, size), size)
  }

  function Concat<T>(chunks: seq<seq<T>>): seq<T> {
    if chunks == [] then [] else chunks[0] + Concat(chunks[1..])
  }

  /** Nothing is lost, doubled or moved. */
  lemma {:induction false} ChunksRejoin<T>(list: seq<T>, size: nat)
    requires size > 0
    ensures Concat(Chunks(list, size)) == list
    decreases |list|
  {
    if list != [] {
      ChunksRejoin(Back(list, size), size);
      assert Chunks(list, size)[1..] == Chunks(Back(list, size), size);
    }
  }

  /** The position of the first element of batch `i`. */
  function Start(i: nat, size: nat): nat {
    i * size
  }

  lemma NextStart(i: nat, size: nat)
    ensures Start(0, size) == 0 && Start(i + 1, size) == Start(i, size) + size
  {
  }

  lemma {:induction false} StartsGrow(i: nat, j: nat, size: nat)
    requires size > 0 && i < j
    ensures Start(i, size) < Start(j, size)
    decreases j
  {
    NextStart(j - 1, size);
    if i < j - 1 {
      StartsGrow(i, j - 1, size);
    }
  }

  /** There are as many batches as it takes, and only the last may be short. */
  lemma {:induction false} ChunkAt<T>(list: seq<T>, size: nat, i: nat)
    requires size > 0
    ensures i < |Chunks(list, size)| <==> Start(i, size) < |list|
    ensures Start(i, size) < |list| ==> Chunks(list, size)[i] == list[Start(i, size)..Min(Start(i + 1, size), |list|)]
    decreases |list|
  {
    NextStart(i, size);
    if list != [] && i > 0 {
      NextStart(i - 1, size);
      ChunkAt(Back(list, size), size, i - 1);
      if Start(i, size) < |list| {
        SliceOfBack(list, size, Start(i - 1, size), Min(Start(i, size), |list| - size));
      }
    }
  }

  lemma SliceOfBack<T>(list: seq<T>, size: nat, from: nat, to: nat)
    requires size < |list| && from <= to <= |list| - size
    ensures Back(list, size)[from..to] == list[size + from..size + to]
  {
  }

  /** The least number of batches that hold the whole list. */
  lemma NumberOfChunks<T>(list: seq<T>, size: nat)
    requires size > 0
    ensures |list| <= |Chunks(list, size)| * size < |list| + size
  {
    var n := |Chunks(list, size)|;
    assert Start(n, size) == n * size;
    ChunkAt(list, size, n);
    if n > 0 {
      ChunkAt(list, size, n - 1);
      NextStart(n - 1, size);
    }
  }

  /** The map holds the first `n` batches, each at the position of its first element, and nothing else. */
  ghost predicate Batched<T>(batchMap: map<nat, seq<T>>, chunks: seq<seq<T>>, size: nat, n: nat)
    requires n <= |chunks|
  {
    && (forall i: nat :: i < n ==> Start(i, size) in batchMap && batchMap[Start(i, size)] == chunks[i])
    && (forall at :: at in batchMap ==> exists i: nat :: i < n && Start(i, size) == at)
  }

  lemma OneMoreBatch<T>(batchMap: map<nat, seq<T>>, chunks: seq<seq<T>>, size: nat, n: nat)
    requires size > 0 && n < |chunks| && Batched(batchMap, chunks, size, n)
    ensures Batched(batchMap[Start(n, size) := chunks[n]], chunks, size, n + 1)
  {
    forall i: nat | i < n ensures Start(i, size) != Start(n, size) {
      StartsGrow(i, n, size);
    }
  }

  /** `getBatches`: the batches by the position of their first element. It ends only for such lists and sizes. */
  method GetBatches<T>(list: seq<T>, size: int) returns (batchMap: map<nat, seq<T>>)
    requires list == [] || size > 0
    ensures list == [] ==> batchMap == map[]
    ensures list != [] ==> Batched(batchMap, Chunks(list, size), size, |Chunks(list, size)|)
  {
    batchMap := map[];
    var lastIndex := 0;
    var rest := list;
    ghost var chunks, done := if list == [] then [] else Chunks(list, size), 0;
    while |rest| > 0
      invariant rest != [] ==> size > 0
      invariant done <= |chunks| && (if rest == [] then done == |chunks| else chunks[done..] == Chunks(rest, size))
      invariant rest != [] ==> lastIndex == Start(done, size)
      invariant list == [] ==> rest == [] && batchMap == map[]
      invariant list != [] ==> size > 0 && Batched(batchMap, chunks, size, done)
      decreases |rest|
    {
      var batch := Front(rest, size);
      OneMoreBatch(batchMap, chunks, size, done);
      batchMap := batchMap[lastIndex := batch];
      lastIndex := lastIndex + |batch|;
      rest := Back(rest, size);
      assert chunks[done..][1..] == chunks[done + 1..];
      NextStart(done, size);
      done := done + 1;
    }
  }

  // A batch size that is not positive.

  /** What is left of the list after some rounds of the loop. */
  function Left<T>(list: seq<T>, size: int, rounds: nat): seq<T> {
    if rounds == 0 then list else Left(Back(list, size), size, rounds - 1)
  }

  predicate IsUsedUp<T>(list: seq<T>, size: int, rounds: nat) {
    |Left(list, size, rounds)| == 0
  }

  /** The loop ends exactly if the list is empty or the size is positive. */
  lemma EndsIff<T>(list: seq<T>, size: int)
    ensures (exists rounds: nat :: IsUsedUp(list, size, rounds)) <==> list == [] || size > 0
  {
    if list == [] {
      assert IsUsedUp(list, size, 0);
    } else if size > 0 {
      PositiveSizeEnds(list, size);
      assert IsUsedUp(list, size, |list|);
    } else {
      forall rounds: nat ensures !IsUsedUp(list, size, rounds) {
        NeverEnds(list, size, rounds);
      }
    }
  }

  lemma {:induction false} PositiveSizeEnds<T>(list: seq<T>, size: nat)
    requires size > 0
    ensures Left(list, size, |list|) == []
    decreases |list|
  {
    if list != [] {
      PositiveSizeEnds(Back(list, size), size);
      StaysEmpty(Back(list, size), size, |Back(list, size)|, |list| - 1);
    }
  }

  lemma {:induction false} StaysEmpty<T>(list: seq<T>, size: nat, rounds: nat, more: nat)
    requires size > 0 && rounds <= more && Left(list, size, rounds) == []
    ensures Left(list, size, more) == []
    decreases more
  {
    if more > 0 {
      if rounds > 0 {
        StaysEmpty(Back(list, size), size, rounds - 1, more - 1);
      } else {
        StaysEmpty(Back(list, size), size, 0, more - 1);
      }
    }
  }

  lemma {:induction false} NeverEnds<T>(list: seq<T>, size: int, rounds: nat)
    requires list != [] && size <= 0
    ensures Left(list, size, rounds) != []
    decreases rounds
  {
    if rounds > 0 {
      NeverEnds(Back(list, size), size, rounds - 1);
    }
  }

  // The SetVariables loop.

  datatype SetVariableStatus =
    | Accepted | Rejected | UnknownComponent | UnknownVariable | NotSupportedAttributeType | RebootRequired

  /** What a call brings in: nothing within the caching time, something that is not a response, or its results. */
  datatype Answer = Silence | Garbled | Results(statuses: seq<SetVariableStatus>)

  datatype Outcome = Completed(rejected: bool, reboot: bool) | Thrown

  predicate Reported(answers: nat -> Answer, calls: nat, status: SetVariableStatus) {
    exists i: nat :: i < calls && answers(i).Results? && status in answers(i).statuses
  }

  /** The answer to call `i` ends the loop. One that cannot be read does not once nothing more can be learnt. */
  predicate Fails(answers: nat -> Answer, i: nat) {
    || answers(i).Silence?
    || (answers(i).Garbled? && !(Reported(answers, i, Rejected) && Reported(answers, i, RebootRequired)))
  }

  /** The flags after the results of one response. */
  method ReadResults(statuses: seq<SetVariableStatus>, rejected: bool, reboot: bool)
    returns (rejected': bool, reboot': bool)
    ensures rejected' <==> rejected || Rejected in statuses
    ensures reboot' <==> reboot || RebootRequired in statuses
  {
    rejected', reboot' := rejected, reboot;
    for i := 0 to |statuses|
      invariant rejected' <==> rejected || Rejected in statuses[..i]
      invariant reboot' <==> reboot || RebootRequired in statuses[..i]
    {
      if statuses[i] == Rejected {
        rejected' := true;
      } else if statuses[i] == RebootRequired {
        reboot' := true;
      }
    }
    assert statuses[..|statuses|] == statuses;
  }

  /** The batch size: what the station reports, whatever that is, or else everything at once. */
  function BatchSize<T>(data: seq<T>, itemsPerMessage: Option<int>): int {
    itemsPerMessage.OrElse(|data|)
  }

  lemma ReportedNext(answers: nat -> Answer, calls: nat, status: SetVariableStatus)
    ensures Reported(answers, calls + 1, status) <==>
            Reported(answers, calls, status) || (answers(calls).Results? && status in answers(calls).statuses)
  {
  }

  lemma {:induction false} LeftNext<T>(list: seq<T>, size: int, rounds: nat)
    ensures Left(list, size, rounds + 1) == Back(Left(list, size, rounds), size)
    decreases rounds
  {
    if rounds > 0 {
      LeftNext(Back(list, size), size, rounds - 1);
    }
  }

  /** The messages are what the loop cuts off, one after the other, for any size. */
  ghost predicate AreCutOff<T>(data: seq<T>, size: int, sent: seq<seq<T>>) {
    forall i :: 0 <= i < |sent| ==> Left(data, size, i) != [] && sent[i] == Front(Left(data, size, i), size)
  }

  /** For a positive size these are the batches. */
  lemma {:induction false} CutOffAreChunks<T>(data: seq<T>, size: nat, sent: seq<seq<T>>)
    requires size > 0 && AreCutOff(data, size, sent)
    ensures sent <= Chunks(data, size)
    ensures Left(data, size, |sent|) == [] ==> sent == Chunks(data, size)
    decreases |sent|
  {
    if sent != [] {
      assert Left(data, size, 0) != [] && sent[0] == Front(Left(data, size, 0), size);
      var rest := Back(data, size);
      forall i | 0 <= i < |sent[1..]|
        ensures Left(rest, size, i) != [] && sent[1..][i] == Front(Left(rest, size, i), size)
      {
        assert Left(data, size, i + 1) == Left(rest, size, i);
        assert sent[1..][i] == sent[i + 1];
      }
      CutOffAreChunks(rest, size, sent[1..]);
      assert sent == [sent[0]] + sent[1..];
    }
  }

  /** No answer but the last of the calls fails, and that one fails if the loop threw. */
  ghost predicate FailsAtLast(answers: nat -> Answer, calls: nat, thrown: bool) {
    if thrown then calls > 0 && Fails(answers, calls - 1) && forall i: nat :: i < calls - 1 ==> !Fails(answers, i)
    else forall i: nat :: i < calls ==> !Fails(answers, i)
  }

  lemma OneMoreCall(answers: nat -> Answer, calls: nat)
    requires FailsAtLast(answers, calls, false)
    ensures FailsAtLast(answers, calls + 1, Fails(answers, calls))
  {
  }

  /** An exception comes with a last answer that cannot be read: with silence, or before both flags are known. */
  lemma LastAnswer(answers: nat -> Answer, calls: nat, thrown: bool)
    requires FailsAtLast(answers, calls, thrown)
    ensures thrown ==> calls > 0 && !answers(calls - 1).Results?
    ensures thrown && answers(calls - 1).Garbled? ==>
              || (forall j: nat :: j < calls - 1 && answers(j).Results? ==> Rejected !in answers(j).statuses)
              || (forall j: nat :: j < calls - 1 && answers(j).Results? ==> RebootRequired !in answers(j).statuses)
    ensures !thrown ==> forall i: nat :: i < calls ==>
              && !answers(i).Silence?
              && (answers(i).Garbled? ==>
                    && (exists j: nat :: j < i && answers(j).Results? && Rejected in answers(j).statuses)
                    && (exists j: nat :: j < i && answers(j).Results? && RebootRequired in answers(j).statuses))
  {
    if thrown {
      assert Fails(answers, calls - 1);
    } else {
      forall i: nat | i < calls ensures !answers(i).Silence? && (answers(i).Garbled? ==>
                    && (exists j: nat :: j < i && answers(j).Results? && Rejected in answers(j).statuses)
                    && (exists j: nat :: j < i && answers(j).Results? && RebootRequired in answers(j).statuses))
      {
        assert !Fails(answers, i);
      }
    }
  }

  /** With the size of the whole list there is one message at most. */
  lemma OneMessage<T>(data: seq<T>, sent: seq<seq<T>>)
    requires AreCutOff(data, |data|, sent)
    ensures sent == [] || (data != [] && sent == [data])
  {
    assert Left(data, |data|, 0) == data && Front(data, |data|) == data;
    assert Left(data, |data|, 1) == Left(Back(data, |data|), |data|, 0) == [];
    if sent != [] {
      assert sent[0] == Front(Left(data, |data|, 0), |data|);
      assert |sent| <= 1;
    }
  }

  lemma OneMoreCutOff<T>(data: seq<T>, size: int, sent: seq<seq<T>>)
    requires AreCutOff(data, size, sent) && Left(data, size, |sent|) != []
    ensures AreCutOff(data, size, sent + [Front(Left(data, size, |sent|), size)])
    ensures Left(data, size, |sent| + 1) == Back(Left(data, size, |sent|), size)
  {
    LeftNext(data, size, |sent|);
  }

  /** The loop is over after `calls` calls: nothing is left to send, or an answer has failed. */
  predicate IsOver<T>(data: seq<T>, size: int, answers: nat -> Answer, calls: nat) {
    IsUsedUp(data, size, calls) || exists i: nat :: i < calls && Fails(answers, i)
  }

  ghost predicate MayEnd<T>(data: seq<T>, size: int, answers: nat -> Answer) {
    data == [] || size > 0 || exists i: nat :: Fails(answers, i)
  }

  /** The SetVariables loop ends exactly if there is nothing to send, the size is positive or some answer fails. */
  lemma SendingEndsIff<T>(data: seq<T>, size: int, answers: nat -> Answer)
    ensures (exists calls: nat :: IsOver(data, size, answers, calls)) <==> MayEnd(data, size, answers)
  {
    EndsIff(data, size);
    if i: nat :| Fails(answers, i) {
      assert IsOver(data, size, answers, i + 1);
    } else if rounds: nat :| IsUsedUp(data, size, rounds) {
      assert IsOver(data, size, answers, rounds);
    }
  }

  /**
    * What is sent is cut off the variables, one message after the other: with a positive size in the batches of
    * `getBatches`, every variable once and in order. The flags say what was reported over all responses, those skipped
    * included. An exception comes with the first answer that fails, and nothing is sent after it. The loop ends only
    * under this condition.
    */
  method SendSetVariables<T>(data: seq<T>, itemsPerMessage: Option<int>, answers: nat -> Answer)
    returns (sent: seq<seq<T>>, outcome: Outcome)
    requires MayEnd(data, BatchSize(data, itemsPerMessage), answers)
    ensures AreCutOff(data, BatchSize(data, itemsPerMessage), sent)
    ensures FailsAtLast(answers, |sent|, outcome.Thrown?)
    ensures outcome.Completed? ==>
              && Left(data, BatchSize(data, itemsPerMessage), |sent|) == []
              && outcome.rejected == Reported(answers, |sent|, Rejected)
              && outcome.reboot == Reported(answers, |sent|, RebootRequired)
    ensures data != [] && BatchSize(data, itemsPerMessage) > 0 ==>
              && sent <= Chunks(data, BatchSize(data, itemsPerMessage))
              && (outcome.Completed? ==> sent == Chunks(data, BatchSize(data, itemsPerMessage)))
    // No message is empty or longer than the station allows; without a limit there is one message.
    ensures itemsPerMessage.Some? && itemsPerMessage.value > 0 ==>
              forall i :: 0 <= i < |sent| ==> 0 < |sent[i]| <= itemsPerMessage.value
    ensures itemsPerMessage.None? ==> sent == if data == [] then [] else [data]
    // Silence always throws; responses that can be read never do, and one that cannot be read does unless both a
    // rejection and a reboot were reported before it.
    ensures outcome.Thrown? ==> sent != [] && !answers(|sent| - 1).Results?
    ensures outcome.Completed? ==> forall i: nat :: i < |sent| ==>
              && !answers(i).Silence?
              && (answers(i).Garbled? ==>
                    && (exists j: nat :: j < i && answers(j).Results? && Rejected in answers(j).statuses)
                    && (exists j: nat :: j < i && answers(j).Results? && RebootRequired in answers(j).statuses))
    ensures outcome.Thrown? && answers(|sent| - 1).Garbled? ==>
              || (forall j: nat :: j < |sent| - 1 && answers(j).Results? ==> Rejected !in answers(j).statuses)
              || (forall j: nat :: j < |sent| - 1 && answers(j).Results? ==> RebootRequired !in answers(j).statuses)
    ensures outcome.Completed? ==>
              && (outcome.rejected <==>
                    exists j: nat :: j < |sent| && answers(j).Results? && Rejected in answers(j).statuses)
              && (outcome.reboot <==>
                    exists j: nat :: j < |sent| && answers(j).Results? && RebootRequired in answers(j).statuses)
  {
    var size := BatchSize(data, itemsPerMessage);
    sent, outcome := SendLoop(data, size, answers);
    if size > 0 {
      CutOffAreChunks(data, size, sent);
      forall i | 0 <= i < |sent| ensures 0 < |sent[i]| <= size {
        assert Left(data, size, i) != [] && sent[i] == Front(Left(data, size, i), size);
      }
    }
    if itemsPerMessage.None? {
      OneMessage(data, sent);
    }
    LastAnswer(answers, |sent|, outcome.Thrown?);
  }

  /** The loop itself. */
  method SendLoop<T>(data: seq<T>, size: int, answers: nat -> Answer) returns (sent: seq<seq<T>>, outcome: Outcome)
    requires MayEnd(data, size, answers)
    ensures AreCutOff(data, size, sent) && FailsAtLast(answers, |sent|, outcome.Thrown?)
    ensures outcome.Completed? ==>
              && Left(data, size, |sent|) == []
              && outcome.rejected == Reported(answers, |sent|, Rejected)
              && outcome.reboot == Reported(answers, |sent|, RebootRequired)
  {
    var setVariableData := data;
    var rejected, reboot := false, false;
    ghost var stop: nat := 0;
    if data != [] && size <= 0 {
      stop :| Fails(answers, stop);
    }
    sent := [];
    while |setVariableData| > 0
      invariant setVariableData == Left(data, size, |sent|) && AreCutOff(data, size, sent)
      invariant data == [] ==> sent == []
      invariant data != [] && size <= 0 ==> Fails(answers, stop) && |sent| <= stop
      invariant FailsAtLast(answers, |sent|, false)
      invariant rejected == Reported(answers, |sent|, Rejected)
      invariant reboot == Reported(answers, |sent|, RebootRequired)
      decreases if size > 0 then |setVariableData| else stop - |sent|
    {
      var call := |sent|;
      ReportedNext(answers, call, Rejected);
      ReportedNext(answers, call, RebootRequired);
      OneMoreCall(answers, call);
      OneMoreCutOff(data, size, sent);
      sent := sent + [Front(setVariableData, size)];
      setVariableData := Back(setVariableData, size);
      if answers(call).Silence? {
        return sent, Thrown;
      }
      if rejected && reboot {
        continue;
      }
      if answers(call).Garbled? {
        return sent, Thrown;
      }
      rejected, reboot := ReadResults(answers(call).statuses, rejected, reboot);
    }
    outcome := Completed(rejected, reboot);
  }
}
