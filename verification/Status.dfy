/** The pipeline status of a notice: which moves are allowed and which are ignored. */
module Status {

  datatype Status =
    | Blank
    | Collected | Analyzed | AttachmentsFetched | DocumentsAnalyzed | SpecExtracted | HwpComposed | FormFilled
    | Notified | DigestQueued | ArchivedLow
    | Other(name: string)

  predicate IsFinal(s: Status) { s.Notified? || s.DigestQueued? || s.ArchivedLow? }

  predicate IsProcessing(s: Status) { !IsFinal(s) && !s.Blank? && !s.Other? }

  /** Position in the processing order. */
  function Order(s: Status): nat
    requires IsProcessing(s)
  {
    match s
    case Collected => 0
    case Analyzed => 1
    case AttachmentsFetched => 2
    case DocumentsAnalyzed => 3
    case SpecExtracted => 4
    case HwpComposed => 5
    case _ => 6
  }

  function ComputeNotifyStatus(fitScore: int): (s: Status)
    ensures IsFinal(s)
  {
    if fitScore >= 70 then Notified else if fitScore >= 40 then DigestQueued else ArchivedLow
  }

  predicate CanTransition(current: Status, next: Status) {
    if current.Blank? then next.Collected?
    else if IsFinal(current) then false
    else if IsFinal(next) then IsProcessing(current) && Order(current) >= Order(Analyzed)
    else if current.Collected? then next.Analyzed?
    else if !IsProcessing(current) || !IsProcessing(next) then false
    else Order(next) > Order(current)
  }

  /** Moves to the target only when that is a step forward. */
  function AdvanceStatus(current: Status, target: Status): Status {
    if IsFinal(current) then current
    else if current.Blank? then (if target.Collected? then target else current)
    else if IsFinal(target) then (if CanTransition(current, target) then target else current)
    else if !IsProcessing(current) || !IsProcessing(target) then current
    else if Order(target) > Order(current) then target else current
  }

  /** Final statuses lie above every processing status. */
  function Rank(s: Status): int {
    if IsFinal(s) then 7 else if IsProcessing(s) then Order(s) else -1
  }

  /** to is a status a request may leave behind when it found from: no lower, and unchanged once final. */
  predicate Forward(from: Status, to: Status) {
    Rank(from) <= Rank(to) && (IsFinal(from) ==> to == from)
  }

  /** The two functions disagree at exactly one place: advancing may skip `analyzed`. */
  lemma AdvanceVersusTransition(current: Status, target: Status)
    ensures AdvanceStatus(current, target) == (if CanTransition(current, target) then target else current)
            <==> !(current == Collected && IsProcessing(target) && Order(target) > Order(Analyzed))
  {
  }

  lemma AdvanceGoesForward(current: Status, target: Status)
    ensures Forward(current, AdvanceStatus(current, target))
    ensures AdvanceStatus(AdvanceStatus(current, target), target) == AdvanceStatus(current, target)
  {
  }

  /** Between processing statuses the order of two advances does not matter. */
  lemma AdvancesCommute(current: Status, a: Status, b: Status)
    requires !current.Blank? && IsProcessing(a) && IsProcessing(b)
    ensures AdvanceStatus(AdvanceStatus(current, a), b) == AdvanceStatus(AdvanceStatus(current, b), a)
  {
  }

  const PIPELINE := [Collected, Analyzed, AttachmentsFetched, DocumentsAnalyzed, SpecExtracted, HwpComposed, FormFilled]

  /** Which moves are allowed: along the pipeline forward, but from the first status to the second only; to a final
      status from any but the first; from the blank status to the first; and no other. */
  lemma AllowedMoves(i: nat, j: nat, other: Status)
    requires i < |PIPELINE| && j < |PIPELINE|
    ensures CanTransition(PIPELINE[i], PIPELINE[j]) <==> i < j && (i == 0 ==> j == 1)
    ensures CanTransition(PIPELINE[i], Notified) <==> 1 <= i
    ensures CanTransition(PIPELINE[i], DigestQueued) <==> 1 <= i
    ensures CanTransition(PIPELINE[i], ArchivedLow) <==> 1 <= i
    ensures CanTransition(Blank, other) <==> other == Collected
    ensures other == Blank || other.Other? ==> !CanTransition(PIPELINE[i], other)
    ensures other in {Notified, DigestQueued, ArchivedLow} || other.Other? ==> !CanTransition(other, PIPELINE[j])
  {
    PipelineOrder(i);
    PipelineOrder(j);
  }

  lemma PipelineOrder(i: nat)
    requires i < |PIPELINE|
    ensures IsProcessing(PIPELINE[i]) && Order(PIPELINE[i]) == i
  {
    assert i == 0 || i == 1 || i == 2 || i == 3 || i == 4 || i == 5 || i == 6;
  }
}
