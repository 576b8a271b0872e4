/** The delivery outbox: its rows, the transactions on them and the batch query. */
module Outbox {
  import opened Basics
  import opened Json

  datatype Status = Pending | Retry | Sent | Failed

  datatype Channel = Teams | SplunkAudit | Unknown(name: string)

  datatype Delivery = Delivery(
    channel: Channel, target: Option<nat>, payload: Json, status: Status, attempts: nat, maxAttempts: nat,
    availableAt: int, lastError: string, createdAt: int, updatedAt: int)

  const MAX_ATTEMPTS := 10
  const BATCH := 25
  const ERROR_LIMIT := 4000

  function NewDelivery(channel: Channel, target: Option<nat>, payload: Json, now: int): Delivery {
    Delivery(channel, target, payload, Pending, 0, MAX_ATTEMPTS, now, "", now, now)
  }

  predicate Active(row: Delivery) {
    row.status == Pending || row.status == Retry
  }

  predicate Due(row: Delivery, now: int) {
    Active(row) && row.availableAt <= now
  }

  /** What the batch query may return: at most `limit` due rows, oldest first, and a due row
      is left out only when the batch is full of rows no younger than it. */
  ghost predicate IsBatch(rows: map<nat, Delivery>, now: int, limit: nat, batch: seq<nat>) {
    && |batch| <= limit
    && (forall i :: 0 <= i < |batch| ==> batch[i] in rows && Due(rows[batch[i]], now))
    && (forall i, j :: 0 <= i < j < |batch| ==>
          batch[i] != batch[j] && rows[batch[i]].createdAt <= rows[batch[j]].createdAt)
    && (forall id :: id in rows && Due(rows[id], now) && id !in batch ==>
          |batch| == limit && forall i :: 0 <= i < |batch| ==> rows[batch[i]].createdAt <= rows[id].createdAt)
  }

  function SentRow(row: Delivery, now: int): Delivery {
    row.(status := Sent, attempts := row.attempts + 1, lastError := "", updatedAt := now)
  }

  function DeliveryDelay(attempts: nat): nat {
    Min(3600, Pow2(Min(attempts, 10)))
  }

  /** `read` is the row as the batch query returned it; the update goes by id. */
  function FailedRow(row: Delivery, read: Delivery, error: string, now: int): Delivery {
    var attempts := read.attempts + 1;
    row.(status := if attempts >= read.maxAttempts then Failed else Retry, attempts := attempts,
         lastError := Clip(error, ERROR_LIMIT), availableAt := now + DeliveryDelay(attempts), updatedAt := now)
  }

  predicate Expired(row: Delivery, cutoff: int) {
    (row.status == Sent || row.status == Failed) && row.updatedAt < cutoff
  }

  function ExpiredRows(rows: map<nat, Delivery>, cutoff: int): set<nat> {
    set id | id in rows && Expired(rows[id], cutoff)
  }

  /** What a purge deletes: the rows sent or failed for good that last changed before the cut-off. */
  lemma DeletedRows(rows: map<nat, Delivery>, cutoff: int, id: nat)
    ensures id in ExpiredRows(rows, cutoff) <==>
              id in rows && (rows[id].status == Sent || rows[id].status == Failed) && rows[id].updatedAt < cutoff
  {
  }

  function KeptRows(rows: map<nat, Delivery>, cutoff: int): map<nat, Delivery> {
    map id | id in rows && !Expired(rows[id], cutoff) :: rows[id]
  }

  // ---------- The back-off schedule ----------

  /** The waits before attempts 2 to k+1 together. */
  function Waits(k: nat): nat {
    if k == 0 then 0 else Waits(k - 1) + DeliveryDelay(k)
  }

  /** The cap of an hour never binds, the delays never decrease, and they stay within 1024 s. */
  lemma DelaysNeverDecrease(k: nat)
    ensures DeliveryDelay(k) == Pow2(Min(k, 10)) <= DeliveryDelay(k + 1) <= 1024
  {
    Pow2Monotone(Min(k, 10), Min(k + 1, 10));
    Pow2Monotone(Min(k, 10), 10);
    Pow2Monotone(Min(k + 1, 10), 10);
    PowersOfTwo();
  }

  lemma {:induction false} WaitsAreGeometric(k: nat)
    requires k <= 10
    ensures Waits(k) == Pow2(k + 1) - 2
  {
    if k > 0 {
      WaitsAreGeometric(k - 1);
      DelaysNeverDecrease(k);
    }
  }

  /** The wait after attempt k, in seconds. */
  lemma DelayTable(k: nat)
    ensures DeliveryDelay(k) == [1, 2, 4, 8, 16, 32, 64, 128, 256, 512, 1024][Min(k, 10)]
  {
    DelaysNeverDecrease(k);
    PowerTable(Min(k, 10));
  }
}
