/**
 * restore_object: the per-object decision, over an abstract head_object result and an
 * abstract outcome of the restore request.
 */
module Restore {
  import opened Wrappers
  import opened Text
  import opened Status
  import opened LogFormat

  /** What head_object gives: an exception, a falsy (empty) head, or a head with or without "Restore". */
  datatype Head = HeadRaised(exception: string) | NoHead | Head(restore: Option<string>)

  /** What the restore request does: returns, or raises with the given text. */
  datatype Call = CallOk | CallRaised(exception: string)

  /** The result of restore_object for one object, with what it did on the way. */
  datatype Restoration = Restoration(status: Tally, requested: bool, record: Record)

  /** Python truthiness of head.get("Restore"): present and not empty. */
  predicate Truthy(restore: Option<string>) {
    restore.Some? && restore.value != ""
  }

  const Completed := "ongoing-request=\"false\""

  const AlreadyRestoredText := " has been already restored."
  const InProgressText := " restoration is still in progress."
  const RestoredText := " has been restored."
  const NotFoundText := " not found."

  /** "Object '<key>' (index=<index, ten digits>)<text>": the messages of one object's outcome. */
  function ObjectMessage(key: string, index: nat, text: string): string {
    "Object '" + key + "' (index=" + Pad10(index) + ")" + text
  }

  /** The message of a raised exception; its index is not zero-padded. */
  function FailureMessage(key: string, index: nat, exception: string): string {
    "Failed to restore object '" + key + "' (index=" + Decimal(index) + "): " + exception
  }

  /**
   * The Status restore_object returns: exactly one counter is 1 on every path. A head
   * with a (truthy) "Restore" value counts as already restored whether that value says
   * the restore is complete or still in progress; a head without one is restored when
   * the request returns; everything else is an error.
   */
  function StatusOf(head: Head, call: Call): (t: Tally)
    ensures IsOutcome(t)
    ensures t.alreadyRestored == 1 <==> head.Head? && Truthy(head.restore)
    ensures t.restored == 1 <==> head.Head? && !Truthy(head.restore) && call.CallOk?
    ensures t.error == 1 <==> head.HeadRaised? || head.NoHead? || (!Truthy(head.restore) && call.CallRaised?)
  {
    match head
    case HeadRaised(_) => Tally(1, 0, 0)
    case NoHead => Tally(1, 0, 0)
    case Head(restore) =>
      if Truthy(restore) then Tally(0, 0, 1)
      else if call.CallOk? then Tally(0, 1, 0)
      else Tally(1, 0, 0)
  }

  /**
   * restore_object: the restore request is made only for a head without a (truthy)
   * "Restore" value; the record is logged at ERROR exactly for the error outcome and at
   * WARNING exactly for the already-restored one, and a completed restore differs from
   * one in progress only in the message.
   */
  function RestoreObject(head: Head, call: Call, key: string, index: nat): (r: Restoration)
    ensures r.status == StatusOf(head, call)
    ensures r.requested <==> head.Head? && !Truthy(head.restore)
    ensures r.status.error == 1 <==> r.record.level == Error
    ensures r.status.alreadyRestored == 1 <==> r.record.level == Warning
  {
    var status := StatusOf(head, call);
    match head
    case HeadRaised(e) =>
      Restoration(status, false, Record(Error, FailureMessage(key, index, e)))
    case NoHead =>
      Restoration(status, false, Record(Error, ObjectMessage(key, index, NotFoundText)))
    case Head(restore) =>
      if Truthy(restore) then
        var text := if Contains(restore.value, Completed) then AlreadyRestoredText else InProgressText;
        Restoration(status, false, Record(Warning, ObjectMessage(key, index, text)))
      else
        match call
        case CallOk =>
          Restoration(status, true, Record(Info, ObjectMessage(key, index, RestoredText)))
        case CallRaised(e) =>
          Restoration(status, true, Record(Error, FailureMessage(key, index, e)))
  }

  /**
   * Whether a (truthy) "Restore" value says the restore is complete changes only the text
   * of the message: the status, the request and the level are the same.
   */
  lemma {:induction false} RestoreValueOnlyChangesMessage(restore: string, restore': string, call: Call, call': Call, key: string, index: nat)
    requires restore != "" && restore' != ""
    ensures var r, r' := RestoreObject(Head(Some(restore)), call, key, index), RestoreObject(Head(Some(restore')), call', key, index);
      && r.status == r'.status == Tally(0, 0, 1)
      && !r.requested && !r'.requested
      && r.record.level == r'.record.level == Warning
      && (Contains(restore, Completed) == Contains(restore', Completed) ==> r == r')
  {
  }
}
