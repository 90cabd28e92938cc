/** The subscription entity and the filters that select subscriptions. */
module Entity {
  import opened Wrappers
  import opened Times

  /** A 16-byte identifier, as github.com/google/uuid's UUID. */
  type Uuid = b: seq<bv8> | |b| == 16 witness [0, 0, 0, 0, 0, 0, 0, 0, 0, 0, 0, 0, 0, 0, 0, 0]

  /** uuid.Nil, the identifier whose bytes are all zero. */
  const NilUuid: Uuid := [0, 0, 0, 0, 0, 0, 0, 0, 0, 0, 0, 0, 0, 0, 0, 0]

  /** One row of the subscriptions table. The start and end dates are months
      (the 1st at 00:00 UTC); an absent end date means open-ended. */
  datatype Subscription = Subscription(
    id: int,
    serviceName: string,
    price: int,
    userId: Uuid,
    startDate: Month,
    endDate: Option<Month>,
    createdAt: Instant,
    updatedAt: Instant)

  /** entity.Subscription{}, the zero value. */
  const EmptySubscription: Subscription := Subscription(0, "", 0, NilUuid, ZeroTime.month, None, ZeroTime, ZeroTime)

  /** The optional filters of a listing. */
  datatype ListFilter = ListFilter(userId: Option<Uuid>, serviceName: Option<string>)

  /** The period and optional filters of a total-cost query. */
  datatype CostFilter = CostFilter(
    dateStart: Instant,
    dateEnd: Instant,
    userId: Option<Uuid>,
    serviceName: Option<string>)

  /** The selection both queries share: an absent filter lets every row
      through, a present one requires equality. */
  predicate Matches(userId: Option<Uuid>, serviceName: Option<string>, s: Subscription) {
    && (userId.None? || s.userId == userId.value)
    && (serviceName.None? || s.serviceName == serviceName.value)
  }

  /** An absent filter lets every row through and a present one keeps
      exactly the rows that carry its value; the two filters combine. */
  lemma MatchesExactly(userId: Option<Uuid>, serviceName: Option<string>, s: Subscription)
    ensures Matches(userId, serviceName, s) <==>
      (userId.None? || userId == Some(s.userId)) && (serviceName.None? || serviceName == Some(s.serviceName))
    ensures Matches(None, None, s) && Matches(Some(s.userId), None, s)
    ensures Matches(None, Some(s.serviceName), s) && Matches(Some(s.userId), Some(s.serviceName), s)
  {
  }
}
