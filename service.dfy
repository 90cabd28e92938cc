/** The subscription service: validation of inputs, the read-merge-write
    update, the mapping of store errors to domain errors, and the end-date
    clamp of the total-cost query. */
module Service {
  import opened Wrappers
  import opened Times
  import opened Entity
  import opened Store
  import CostQuery

  /** The operation a wrapped error names ("get subscription: ..."). */
  datatype Context = CreateCtx | GetCtx | DeleteCtx | ListCtx | TotalCostCtx

  /** The service's errors: the five sentinel errors, a store error wrapped
      with the operation's context, and a store error passed on as it is. */
  datatype Error =
    | InvalidPrice
    | InvalidServiceName
    | SubscriptionNotFound
    | InvalidDateRange
    | InvalidUserId
    | Wrapped(context: Context, cause: StoreError)
    | Passed(cause: StoreError)

  datatype CreateInput = CreateInput(
    serviceName: string,
    price: int,
    userId: Uuid,
    startDate: Month,
    endDate: Option<Month>)

  /** A partial update: an absent field leaves the stored value alone. */
  datatype UpdateInput = UpdateInput(
    serviceName: Option<string>,
    price: Option<int>,
    userId: Option<Uuid>,
    startDate: Option<Month>,
    setEndDateToNull: bool,
    endDate: Option<Month>)

  datatype TotalCostInput = TotalCostInput(
    startDate: Month,
    endDate: Month,
    userId: Option<Uuid>,
    serviceName: Option<string>)

  /** What a subscription is meant to satisfy: a name, a positive price, a
      user, and an end date, if any, no earlier than the start date. */
  predicate WellFormed(s: Subscription) {
    && s.serviceName != ""
    && 0 < s.price
    && s.userId != NilUuid
    && (s.endDate.None? || s.startDate <= s.endDate.value)
  }

  /** The row a create input describes, before the store stamps it. */
  function NewRow(input: CreateInput): Subscription {
    EmptySubscription.(
      serviceName := input.serviceName,
      price := input.price,
      userId := input.userId,
      startDate := input.startDate,
      endDate := input.endDate)
  }

  /** end.Before(start) on the 1st of the two months. */
  predicate EndsBeforeStart(start: Month, end: Option<Month>) {
    end.Some? && Before(FirstOf(end.value), FirstOf(start))
  }

  /** validateCreateInput: the first of the four checks that fails. */
  function ValidateCreateInput(input: CreateInput): (r: Option<Error>)
    ensures r.None? <==> WellFormed(NewRow(input))
    ensures input.serviceName == "" ==> r == Some(InvalidServiceName)
    ensures input.serviceName != "" && input.price <= 0 ==> r == Some(InvalidPrice)
    ensures input.serviceName != "" && 0 < input.price && input.userId == NilUuid ==> r == Some(InvalidUserId)
    ensures (input.serviceName != "" && 0 < input.price && input.userId != NilUuid
             && input.endDate.Some? && input.endDate.value < input.startDate) ==> r == Some(InvalidDateRange)
  {
    if input.serviceName == "" then Some(InvalidServiceName)
    else if input.price <= 0 then Some(InvalidPrice)
    else if input.userId == NilUuid then Some(InvalidUserId)
    else if EndsBeforeStart(input.startDate, input.endDate) then Some(InvalidDateRange)
    else None
  }

  /** The row with every present field of the input written over it. The
      flag setEndDateToNull is not consulted. */
  function Overlay(sub: Subscription, input: UpdateInput): (r: Subscription)
    ensures r.id == sub.id && r.createdAt == sub.createdAt && r.updatedAt == sub.updatedAt
    ensures sub.endDate.Some? ==> r.endDate.Some?
  {
    sub.(
      serviceName := input.serviceName.GetOr(sub.serviceName),
      price := input.price.GetOr(sub.price),
      userId := input.userId.GetOr(sub.userId),
      startDate := input.startDate.GetOr(sub.startDate),
      endDate := if input.endDate.Some? then input.endDate else sub.endDate)
  }

  /** The checks of applyUpdates, in order: each present name, price and
      user id gets its create check, and the dates are checked together on
      the merged row. */
  function UpdateCheck(sub: Subscription, input: UpdateInput): (r: Option<Error>)
    ensures r.None? ==>
      var m := Overlay(sub, input);
      && (input.serviceName.Some? ==> m.serviceName != "")
      && (input.price.Some? ==> 0 < m.price)
      && (input.userId.Some? ==> m.userId != NilUuid)
      && (m.endDate.None? || m.startDate <= m.endDate.value)
    ensures r.Some? ==> r.value in {InvalidServiceName, InvalidPrice, InvalidUserId, InvalidDateRange}
  {
    if input.serviceName == Some("") then Some(InvalidServiceName)
    else if input.price.Some? && input.price.value <= 0 then Some(InvalidPrice)
    else if input.userId == Some(NilUuid) then Some(InvalidUserId)
    else
      var merged := Overlay(sub, input);
      if EndsBeforeStart(merged.startDate, merged.endDate) then Some(InvalidDateRange) else None
  }

  /** applyUpdates: merges field by field, stopping at the first failing
      check; the row then holds the fields merged before it. */
  method ApplyUpdates(sub: Subscription, input: UpdateInput) returns (merged: Subscription, err: Option<Error>)
    ensures err == UpdateCheck(sub, input)
    ensures err.None? ==> merged == Overlay(sub, input)
    ensures err == Some(InvalidServiceName) ==> merged == sub
    ensures err == Some(InvalidPrice) ==> merged == sub.(serviceName := input.serviceName.GetOr(sub.serviceName))
    ensures err == Some(InvalidUserId) ==>
      merged == sub.(serviceName := input.serviceName.GetOr(sub.serviceName), price := input.price.GetOr(sub.price))
    ensures err == Some(InvalidDateRange) ==> merged == Overlay(sub, input)
  {
    merged := sub;
    if input.serviceName.Some? {
      if input.serviceName.value == "" {
        return merged, Some(InvalidServiceName);
      }
      merged := merged.(serviceName := input.serviceName.value);
    }
    if input.price.Some? {
      if input.price.value <= 0 {
        return merged, Some(InvalidPrice);
      }
      merged := merged.(price := input.price.value);
    }
    if input.userId.Some? {
      if input.userId.value == NilUuid {
        return merged, Some(InvalidUserId);
      }
      merged := merged.(userId := input.userId.value);
    }
    if input.startDate.Some? {
      merged := merged.(startDate := input.startDate.value);
    }
    if input.endDate.Some? {
      merged := merged.(endDate := input.endDate);
    }
    if merged.endDate.Some? && Before(FirstOf(merged.endDate.value), FirstOf(merged.startDate)) {
      return merged, Some(InvalidDateRange);
    }
    err := None;
  }

  /** An end date equal to the start date passes both create and update,
      because Before is strict. */
  lemma EndEqualToStartAccepted(input: CreateInput, sub: Subscription, update: UpdateInput)
    requires input.serviceName != "" && 0 < input.price && input.userId != NilUuid
    requires input.endDate == Some(input.startDate)
    requires update.serviceName != Some("") && (update.price.None? || 0 < update.price.value)
    requires update.userId != Some(NilUuid)
    requires Overlay(sub, update).endDate == Some(Overlay(sub, update).startDate)
    ensures ValidateCreateInput(input) == None
    ensures UpdateCheck(sub, update) == None
  {
  }

  /** In the merge, an absent field keeps the stored value, a present one
      replaces it, and the id and timestamps are untouched. */
  lemma OverlayFields(sub: Subscription, input: UpdateInput)
    ensures var r := Overlay(sub, input);
      && r.id == sub.id && r.createdAt == sub.createdAt && r.updatedAt == sub.updatedAt
      && (input.serviceName.None? ==> r.serviceName == sub.serviceName)
      && (input.serviceName.Some? ==> r.serviceName == input.serviceName.value)
      && (input.price.None? ==> r.price == sub.price)
      && (input.price.Some? ==> r.price == input.price.value)
      && (input.userId.None? ==> r.userId == sub.userId)
      && (input.userId.Some? ==> r.userId == input.userId.value)
      && (input.startDate.None? ==> r.startDate == sub.startDate)
      && (input.startDate.Some? ==> r.startDate == input.startDate.value)
      && (input.endDate.None? ==> r.endDate == sub.endDate)
      && (input.endDate.Some? ==> r.endDate == input.endDate)
  {
  }

  /** The flag setEndDateToNull changes nothing: an update with the flag set
      and no end date keeps the stored end date, so an end date, once set,
      can never be cleared. */
  lemma ClearFlagIgnored(sub: Subscription, input: UpdateInput, flag: bool)
    ensures Overlay(sub, input.(setEndDateToNull := flag)) == Overlay(sub, input)
    ensures UpdateCheck(sub, input.(setEndDateToNull := flag)) == UpdateCheck(sub, input)
    ensures input.endDate.None? ==> Overlay(sub, input).endDate == sub.endDate
    ensures sub.endDate.Some? ==> Overlay(sub, input).endDate.Some?
  {
  }

  /** On a well-formed stored row, the update's checks give the same verdict
      as validating the merged row as a create input. */
  lemma UpdateChecksAsCreate(sub: Subscription, input: UpdateInput)
    requires WellFormed(sub)
    ensures var m := Overlay(sub, input);
      UpdateCheck(sub, input) == ValidateCreateInput(CreateInput(m.serviceName, m.price, m.userId, m.startDate, m.endDate))
  {
  }

  /** An update that passes its checks keeps a well-formed row well-formed. */
  lemma UpdateKeepsWellFormed(sub: Subscription, input: UpdateInput)
    requires WellFormed(sub) && UpdateCheck(sub, input).None?
    ensures WellFormed(Overlay(sub, input))
  {
    var m := Overlay(sub, input);
    UpdateChecksAsCreate(sub, input);
    assert NewRow(CreateInput(m.serviceName, m.price, m.userId, m.startDate, m.endDate)).endDate == m.endDate;
  }

  /** The end of the total-cost period: the requested end, or now when that
      is earlier. */
  function EffectiveEnd(end: Month, now: Instant): (r: Instant)
    ensures r == now || r == FirstOf(end)
    ensures !Before(now, r) && !Before(FirstOf(end), r)
  {
    if Before(now, FirstOf(end)) then now else FirstOf(end)
  }

  /** In months, the clamped end is the earlier of the requested end and the
      current month; the period is rejected exactly when that month is before
      the start month. */
  lemma EffectiveEndMonths(start: Month, end: Month, now: Instant)
    ensures CostQuery.LastBilledMonth(EffectiveEnd(end, now)) == if end < now.month then end else now.month
    ensures Before(EffectiveEnd(end, now), FirstOf(start)) <==> end < start || now.month < start
    ensures CostQuery.FirstBilledMonth(FirstOf(start)) == start
  {
    BeforeFirstOf(now, end);
    BeforeFirstOf(EffectiveEnd(end, now), start);
  }

  /** The service over its repository. */
  class SubscriptionService {
    const repo: Table

    constructor (repo: Table)
      ensures this.repo == repo
    {
      this.repo := repo;
    }

    /** Create: validate, then insert; a rejected input never reaches the
        store, and a store failure is wrapped. */
    method Create(input: CreateInput, now: Instant) returns (r: Result<Subscription, Error>)
      requires repo.Valid() && !Before(now, repo.clock)
      modifies repo
      ensures repo.Valid() && repo.conn == old(repo.conn)
      ensures ValidateCreateInput(input).Some? ==>
        r == Err(ValidateCreateInput(input).value) && unchanged(repo)
      ensures ValidateCreateInput(input).None? && old(repo.conn) == Offline ==>
        && r == Err(Wrapped(CreateCtx, Failed(CreateOp))) && repo.rows == old(repo.rows)
        && repo.nextId == old(repo.nextId) && repo.clock == old(repo.clock)
      ensures ValidateCreateInput(input).None? && old(repo.conn) != Offline ==>
        && r == Ok(NewRow(input).(id := old(repo.nextId), createdAt := now, updatedAt := now))
        && WellFormed(r.value) && 1 <= r.value.id && r.value.id !in old(repo.rows)
        && repo.rows == old(repo.rows)[r.value.id := r.value]
        && repo.nextId == old(repo.nextId) + 1 && repo.clock == now
    {
      var invalid := ValidateCreateInput(input);
      if invalid.Some? {
        return Err(invalid.value);
      }
      var created := repo.Create(NewRow(input), now);
      if created.Err? {
        return Err(Wrapped(CreateCtx, created.error));
      }
      r := Ok(created.value);
    }

    /** Get: the stored row; a missing id is SubscriptionNotFound, any other
        store error is wrapped. */
    method Get(id: int) returns (r: Result<Subscription, Error>)
      ensures repo.conn == Offline ==> r == Err(Wrapped(GetCtx, Failed(GetByIdOp)))
      ensures repo.conn != Offline && id in repo.rows ==> r == Ok(repo.rows[id])
      ensures repo.conn != Offline && id !in repo.rows ==> r == Err(SubscriptionNotFound)
    {
      var found := repo.GetById(id);
      if found.Err? {
        if found.error == NoRows {
          return Err(SubscriptionNotFound);
        }
        return Err(Wrapped(GetCtx, found.error));
      }
      r := Ok(found.value);
    }

    /** Update: inside WithTx, read the row, merge and check the input, and
        write the merged row back. The connection may fail between the
        statements: `atRead` and `atWrite` are its states when the read and
        the write run, and `atCommit` when the deferred commit runs. A store
        failure after the transaction began is returned unwrapped; a failed
        commit is not reported. Every failure leaves the table as it was; success
        returns what the store's write returned. */
    method Update(id: int, input: UpdateInput, now: Instant, atRead: Conn, atWrite: Conn, atCommit: Conn)
      returns (r: Result<Subscription, Error>)
      requires repo.Valid() && !Before(now, repo.clock)
      modifies repo
      ensures repo.Valid() && repo.nextId == old(repo.nextId)
      ensures r.Err? ==> repo.rows == old(repo.rows) && repo.clock == old(repo.clock)
      ensures old(repo.conn) == Offline ==> r == Err(Passed(Failed(BeginOp))) && repo.conn == old(repo.conn)
      ensures old(repo.conn) != Offline ==> repo.conn == atCommit
      ensures old(repo.conn) != Offline && atRead == Offline ==> r == Err(Passed(Failed(GetByIdOp)))
      ensures old(repo.conn) != Offline && atRead != Offline && id !in old(repo.rows) ==>
        r == Err(SubscriptionNotFound)
      ensures old(repo.conn) != Offline && atRead != Offline && id in old(repo.rows)
              && UpdateCheck(old(repo.rows)[id], input).Some? ==>
        r == Err(UpdateCheck(old(repo.rows)[id], input).value)
      ensures old(repo.conn) != Offline && atRead != Offline && id in old(repo.rows)
              && UpdateCheck(old(repo.rows)[id], input).None? && atWrite == Offline ==>
        r == Err(Passed(Failed(UpdateOp)))
      ensures old(repo.conn) != Offline && atRead != Offline && id in old(repo.rows)
              && UpdateCheck(old(repo.rows)[id], input).None? && atWrite != Offline ==>
        && r == Ok(Overlay(old(repo.rows)[id], input).(updatedAt := now))
        && (WellFormed(old(repo.rows)[id]) ==> WellFormed(r.value))
        && repo.rows == old(repo.rows)[id := r.value] && repo.clock == now
    {
      var beginErr := repo.BeginTx();
      if beginErr.Some? {
        return Err(Passed(beginErr.value));
      }
      var updated := EmptySubscription;
      var fnErr: Option<Error> := None;
      repo.SetConn(atRead);
      var existing := repo.GetById(id);
      match existing {
        case Err(NoRows) =>
          fnErr := Some(SubscriptionNotFound);
        case Err(e) =>
          fnErr := Some(Passed(e));
        case Ok(row) =>
          var merged, checkErr := ApplyUpdates(row, input);
          if checkErr.Some? {
            fnErr := checkErr;
          } else {
            if WellFormed(row) {
              UpdateKeepsWellFormed(row, input);
            }
            repo.SetConn(atWrite);
            var written := repo.Update(merged, now);
            match written {
              case Ok(w) => updated := w;
              case Err(e) => fnErr := Some(Passed(e));
            }
          }
      }
      repo.SetConn(atCommit);
      var err, _ := repo.EndTx(fnErr);
      if err.Some? {
        return Err(err.value);
      }
      r := Ok(updated);
    }

    /** Delete: a missing id is SubscriptionNotFound, any other store error
        is wrapped. */
    method Delete(id: int) returns (r: Option<Error>)
      requires repo.Valid()
      modifies repo`rows
      ensures repo.Valid()
      ensures repo.conn == Offline ==> r == Some(Wrapped(DeleteCtx, Failed(DeleteOp))) && repo.rows == old(repo.rows)
      ensures repo.conn != Offline ==> repo.rows == old(repo.rows) - {id}
      ensures repo.conn == Healthy ==> r == (if id in old(repo.rows) then None else Some(SubscriptionNotFound))
      ensures repo.conn == RowCountUnsupported ==> r == None
    {
      var err := repo.Delete(id);
      if err.Some? {
        if err.value == NoRows {
          return Some(SubscriptionNotFound);
        }
        return Some(Wrapped(DeleteCtx, err.value));
      }
      r := None;
    }

    /** GetAll: the matching rows, newest first. */
    method GetAll(userId: Option<Uuid>, serviceName: Option<string>) returns (r: Result<seq<Subscription>, Error>)
      requires repo.Valid()
      ensures repo.conn == Offline ==> r == Err(Wrapped(ListCtx, Failed(GetAllOp)))
      ensures repo.conn != Offline ==> r.Ok? && Listing(r.value, repo.rows, userId, serviceName)
    {
      var listed := repo.GetAll(ListFilter(userId, serviceName));
      if listed.Err? {
        return Err(Wrapped(ListCtx, listed.error));
      }
      r := Ok(listed.value);
    }

    /** TotalCost: clamp the end to now, reject a period that ends before it
        starts without querying, and otherwise pass the start, the clamped
        end and the filters to the aggregate. */
    method TotalCost(input: TotalCostInput, now: Instant) returns (r: Result<int, Error>)
      ensures Before(EffectiveEnd(input.endDate, now), FirstOf(input.startDate)) ==>
        r == Err(InvalidDateRange)
      ensures !Before(EffectiveEnd(input.endDate, now), FirstOf(input.startDate)) && repo.conn == Offline ==>
        r == Err(Wrapped(TotalCostCtx, Failed(TotalCostOp)))
      ensures !Before(EffectiveEnd(input.endDate, now), FirstOf(input.startDate)) && repo.conn != Offline ==>
        r == Ok(CostQuery.TotalCost(repo.Rows(),
          CostFilter(FirstOf(input.startDate), EffectiveEnd(input.endDate, now), input.userId, input.serviceName)))
    {
      var endDate := FirstOf(input.endDate);
      if Before(now, endDate) {
        endDate := now;
      }
      if Before(endDate, FirstOf(input.startDate)) {
        return Err(InvalidDateRange);
      }
      var filter := CostFilter(FirstOf(input.startDate), endDate, input.userId, input.serviceName);
      var cost := repo.GetTotalCost(filter);
      if cost.Err? {
        return Err(Wrapped(TotalCostCtx, cost.error));
      }
      r := Ok(cost.value);
    }
  }
}
