/** The background worker of the order queue: a job carries a request
    that was validated when it was enqueued, and the worker prices it and
    writes the order, its items and the idempotency entry in one
    transaction. */
module OrderQueue {
  import opened Common
  import opened Tables
  import opened Entities
  import opened OrderSchema
  import opened OrderRepository
  import opened OrderPricing
  import opened OrderWrite

  /** `job.data`: the public id chosen at enqueue time, the customer, the
      parsed body and the idempotency key ("" when the client sent none). */
  datatype Job = Job(publicId: string, userId: int, body: CreateOrderRequest, idempotencyKey: string)

  /** The job body: the same pricing as the HTTP handler, then the write
      with the job's key. A failed job has changed nothing. */
  function JobOutcome(db: Db, job: Job, now: Time, fault: Option<WriteStep>): (r: (Result<Created>, Db))
    requires Valid(db)
    ensures r.0.Err? ==> r.1 == db
    ensures Valid(r.1)
  {
    PlaceOrder(db, job.userId, job.body, job.idempotencyKey, now, job.publicId, fault)
  }

  method ProcessJob(s: Store, job: Job, now: Time, fault: Option<WriteStep>) returns (r: Result<Created>)
    requires Valid(s.db)
    modifies s
    ensures (r, s.db) == JobOutcome(old(s.db), job, now, fault)
  {
    r := PlaceOrderTx(s, job.userId, job.body, job.idempotencyKey, now, job.publicId, fault);
  }

  /** A missing branch, an id that does not resolve or an unavailable item
      fails the job before anything is written, and so does a rejected
      commit. */
  lemma JobRejects(db: Db, job: Job, now: Time, fault: Option<WriteStep>)
    requires Valid(db)
    ensures var (r, d) := JobOutcome(db, job, now, fault);
            && (GetBranchInfo(db, job.body.branchId).None? ==> r == Err(NotFoundError("Branch not found")) && d == db)
            && ((exists i :: 0 <= i < |job.body.items| && job.body.items[i].menuItemId !in db.menuItems.rows) ==>
                  r.Err? && d == db)
            && ((exists i :: 0 <= i < |job.body.items| && job.body.items[i].menuItemId in db.menuItems.rows
                   && !db.menuItems.rows[job.body.items[i].menuItemId].available) ==> r.Err? && d == db)
            && (fault == Some(CommitStep) ==> r.Err? && d == db)
  {
    PlaceOrderRejects(db, job.userId, job.body, job.idempotencyKey, now, job.publicId, fault);
    if PriceSpec(db, job.body).Ok? {
      var p := PriceSpec(db, job.body).value;
      WriteOrderFails(db, NewOrderFor(job.publicId, job.userId, job.body, p, now), p.lines, job.idempotencyKey, now, fault);
    }
  }

  /** A job with a key leaves an idempotency entry that points at the new
      order and replays `{orderWithoutSerialId, items}`; a job without one
      leaves the entries as they were. */
  lemma JobLedger(db: Db, job: Job, now: Time, fault: Option<WriteStep>)
    requires Valid(db) && JobOutcome(db, job, now, fault).0.Ok?
    ensures var (r, d) := JobOutcome(db, job, now, fault);
            && (job.idempotencyKey != "" ==>
                  GetIdempotency(d, job.idempotencyKey)
                  == Some(SavedResponse(job.idempotencyKey,
                                        IdempotencyResponse(WithoutSerialId(r.value.order), r.value.items),
                                        r.value.order.id)))
            && (job.idempotencyKey == "" ==> d.idempotency == db.idempotency)
  {
    PlaceOrderFootprint(db, job.userId, job.body, job.idempotencyKey, now, job.publicId, fault);
  }

  /** A completed job created the order of its customer under its public
      id, with the stored prices, and it reads back with its items. */
  lemma JobCreates(db: Db, job: Job, now: Time, fault: Option<WriteStep>)
    requires Valid(db) && JobOutcome(db, job, now, fault).0.Ok?
    ensures forall i :: 0 <= i < |job.body.items| ==> job.body.items[i].menuItemId in db.menuItems.rows
    ensures var (r, d) := JobOutcome(db, job, now, fault);
            && r.value.order.customerId == job.userId && r.value.order.publicId == job.publicId
            && r.value.order.status == Preparing
            && r.value.order.total == StoredTotal(db, job.body.items)
            && GetOrderById(d, job.publicId) == Some(OrderWithItems(r.value.order, r.value.items))
  {
    PlaceOrderOk(db, job.userId, job.body, job.idempotencyKey, now, job.publicId, fault);
    PlaceOrderPrice(db, job.userId, job.body, job.idempotencyKey, now, job.publicId, fault);
    PlaceOrderItems(db, job.userId, job.body, job.idempotencyKey, now, job.publicId, fault);
  }

  /** Delivering a completed job a second time fails on the taken public
      id and changes nothing. */
  lemma JobReplayFails(db: Db, job: Job, now: Time, later: Time, fault: Option<WriteStep>, fault2: Option<WriteStep>)
    requires Valid(db) && JobOutcome(db, job, now, fault).0.Ok?
    ensures var d := JobOutcome(db, job, now, fault).1;
            JobOutcome(d, job, later, fault2).0.Err? && JobOutcome(d, job, later, fault2).1 == d
  {
    var d := JobOutcome(db, job, now, fault).1;
    JobCreates(db, job, now, fault);
    GetOrderByIdSpec(d, job.publicId);
    PlaceOrderRejects(d, job.userId, job.body, job.idempotencyKey, later, job.publicId, fault2);
  }
}
