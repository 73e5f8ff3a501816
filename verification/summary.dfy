/** `collaborator_detail`: a collaborator's monthly paid total, tier and
    commission. */
module MonthlySummary {
  import opened Wrappers
  import opened Calendar
  import opened Installments
  import opened Store
  import Commission

  /** The query's filter: the installment's sale belongs to `cid`, the client
      has paid, and the payment date lies in `month` of `year`. A missing sale
      row drops out of the join; a NULL date matches no month. */
  predicate Counted(sales: seq<Sale>, cid: Id, month: int, year: int, inst: Installment)
    ensures Counted(sales, cid, month, year, inst) ==>
      inst.clientPaid && inst.clientPaidDate.Some?
      && inst.clientPaidDate == Some(Date(year, month, inst.clientPaidDate.value.day))
  {
    && HasRow(sales, inst.saleId)
    && sales[inst.saleId - 1].collaboratorId == cid
    && inst.clientPaid
    && inst.clientPaidDate.Some?
    && inst.clientPaidDate.value.month == month
    && inst.clientPaidDate.value.year == year
  }

  function Contribution(sales: seq<Sale>, cid: Id, month: int, year: int, inst: Installment): real {
    if Counted(sales, cid, month, year, inst) then inst.amount else 0.0
  }

  predicate NoneCounted(sales: seq<Sale>, insts: seq<Installment>, cid: Id, month: int, year: int) {
    forall i :: 0 <= i < |insts| ==> !Counted(sales, cid, month, year, insts[i])
  }

  predicate NonNegativeAmounts(insts: seq<Installment>) {
    forall i :: 0 <= i < |insts| ==> insts[i].amount >= 0.0
  }

  /** `sum(inst.amount for inst in installments)` over the matching rows. */
  function PaidTotal(sales: seq<Sale>, insts: seq<Installment>, cid: Id, month: int, year: int): (r: real)
    ensures NoneCounted(sales, insts, cid, month, year) ==> r == 0.0
    ensures NonNegativeAmounts(insts) ==> r >= 0.0
  {
    if insts == [] then 0.0
    else PaidTotal(sales, insts[..|insts| - 1], cid, month, year)
         + Contribution(sales, cid, month, year, insts[|insts| - 1])
  }

  /** Ids of the collaborator's sales, in id order (`todas_vendas`). */
  function SalesOf(sales: seq<Sale>, cid: Id): (ids: seq<Id>)
    ensures forall i :: 0 <= i < |ids| ==> HasRow(sales, ids[i]) && sales[ids[i] - 1].collaboratorId == cid
    ensures forall k :: 0 <= k < |sales| && sales[k].collaboratorId == cid ==> k + 1 in ids
    ensures forall i, j :: 0 <= i < j < |ids| ==> ids[i] < ids[j]
  {
    if sales == [] then []
    else
      var n := |sales|;
      var rest := SalesOf(sales[..n - 1], cid);
      if sales[n - 1].collaboratorId == cid then rest + [n] else rest
  }

  datatype Summary = Summary(totalSold: real, multiplier: real, commission: real, sales: seq<Id>)

  /** The detail page's figures; the commission is before the rounding to
      cents of `collaborator_detail`. */
  function CollaboratorSummary(db: Db, cid: Id, month: int, year: int): (r: Result<Summary, Error>)
    ensures r.Failure? <==> !HasRow(db.collaborators, cid)
    ensures r.Failure? ==> r.error == NotFound
    ensures r.Success? ==>
      && r.value.totalSold == PaidTotal(db.sales, db.installments, cid, month, year)
      && (r.value.multiplier == 1.2 <==> r.value.totalSold <= Commission.LowTierCap)
      && (r.value.multiplier == 1.6 <==> Commission.MidTierCap < r.value.totalSold)
      && (r.value.multiplier == 1.2 || r.value.multiplier == 1.4 || r.value.multiplier == 1.6)
      && r.value.commission == r.value.totalSold * (r.value.multiplier - 1.0)
      && (forall k :: 0 <= k < |db.sales| ==> (db.sales[k].collaboratorId == cid <==> k + 1 in r.value.sales))
      && r.value.sales == SalesOf(db.sales, cid)
      && (forall i :: 0 <= i < |r.value.sales| ==>
            HasRow(db.sales, r.value.sales[i]) && db.sales[r.value.sales[i] - 1].collaboratorId == cid)
      && (forall i, j :: 0 <= i < j < |r.value.sales| ==> r.value.sales[i] < r.value.sales[j])
  {
    if !HasRow(db.collaborators, cid) then Failure(NotFound)
    else
      var total := PaidTotal(db.sales, db.installments, cid, month, year);
      Success(Summary(total, Commission.Multiplier(total), Commission.CommissionValue(total),
                      SalesOf(db.sales, cid)))
  }

  // ----- How the operations move the total -----

  lemma PaidTotalAppend(sales: seq<Sale>, insts: seq<Installment>, x: Installment, cid: Id, month: int, year: int)
    ensures PaidTotal(sales, insts + [x], cid, month, year)
      == PaidTotal(sales, insts, cid, month, year) + Contribution(sales, cid, month, year, x)
  {
    assert (insts + [x])[..|insts|] == insts;
  }

  /** Replacing one row changes the total by the difference of that row's
      contributions and by nothing else. */
  lemma {:induction false} PaidTotalUpdate(sales: seq<Sale>, insts: seq<Installment>, k: int, x: Installment,
                                           cid: Id, month: int, year: int)
    requires 0 <= k < |insts|
    ensures PaidTotal(sales, insts[k := x], cid, month, year)
      == PaidTotal(sales, insts, cid, month, year)
         - Contribution(sales, cid, month, year, insts[k]) + Contribution(sales, cid, month, year, x)
  {
    var n := |insts|;
    var init := insts[..n - 1];
    if k == n - 1 {
      assert insts[k := x] == init + [x];
      assert insts == init + [insts[k]];
      PaidTotalAppend(sales, init, x, cid, month, year);
      PaidTotalAppend(sales, init, insts[k], cid, month, year);
    } else {
      assert insts[k := x] == init[k := x] + [insts[n - 1]];
      assert insts == init + [insts[n - 1]];
      PaidTotalUpdate(sales, init, k, x, cid, month, year);
      PaidTotalAppend(sales, init[k := x], insts[n - 1], cid, month, year);
      PaidTotalAppend(sales, init, insts[n - 1], cid, month, year);
    }
  }

  /** Adding a sale row does not change how existing installments join. */
  lemma {:induction false} PaidTotalNewSale(sales: seq<Sale>, s: Sale, insts: seq<Installment>,
                                            cid: Id, month: int, year: int)
    requires forall k :: 0 <= k < |insts| ==> HasRow(sales, insts[k].saleId)
    ensures PaidTotal(sales + [s], insts, cid, month, year) == PaidTotal(sales, insts, cid, month, year)
  {
    if insts != [] {
      PaidTotalNewSale(sales, s, insts[..|insts| - 1], cid, month, year);
      var last := insts[|insts| - 1];
      assert (sales + [s])[last.saleId - 1] == sales[last.saleId - 1];
    }
  }

  /** Registering a sale leaves every monthly total as it was: its installment
      is unpaid. */
  lemma RegisterSaleKeepsTotals(db: Db, collaboratorId: Option<Id>, clientName: string, amount: real,
                                firstPayment: Option<Date>, cid: Id, month: int, year: int)
    requires WellFormed(db)
    requires firstPayment.Some? ==> Valid(firstPayment.value)
    requires RegisterSale(db, collaboratorId, clientName, amount, firstPayment).Success?
    ensures var db' := RegisterSale(db, collaboratorId, clientName, amount, firstPayment).value.0;
      PaidTotal(db'.sales, db'.installments, cid, month, year)
        == PaidTotal(db.sales, db.installments, cid, month, year)
  {
    var db' := RegisterSale(db, collaboratorId, clientName, amount, firstPayment).value.0;
    forall k | 0 <= k < |db.installments|
      ensures HasRow(db.sales, db.installments[k].saleId)
    {
      assert InstallmentOfSale(db.sales, db.installments, k);
    }
    var newInst := db'.installments[|db.installments|];
    assert db'.installments == db.installments + [newInst];
    PaidTotalAppend(db'.sales, db.installments, newInst, cid, month, year);
    PaidTotalNewSale(db.sales, db'.sales[|db.sales|], db.installments, cid, month, year);
    assert db'.sales == db.sales + [db'.sales[|db.sales|]];
  }

  /** Paying the collaborator leaves every monthly total as it was. */
  lemma RecordCollaboratorPaymentKeepsTotals(db: Db, instId: Id, paid: Date, cid: Id, month: int, year: int)
    requires Valid(paid)
    requires RecordCollaboratorPayment(db, instId, paid).Success?
    ensures var db' := RecordCollaboratorPayment(db, instId, paid).value;
      PaidTotal(db'.sales, db'.installments, cid, month, year)
        == PaidTotal(db.sales, db.installments, cid, month, year)
  {
    var inst := db.installments[instId - 1];
    PaidTotalUpdate(db.sales, db.installments, instId - 1, MarkCollaboratorPaid(inst, paid), cid, month, year);
  }

  /** A first client payment on one of `cid`'s installments, dated in the
      queried month, raises that month's total by exactly the installment's
      amount; in any other month the total is unchanged. */
  lemma RecordClientPaymentRaisesTotal(db: Db, instId: Id, paid: Date, cid: Id)
    requires Valid(paid)
    requires RecordClientPayment(db, instId, paid).Success?
    requires !db.installments[instId - 1].clientPaid
    requires var inst := db.installments[instId - 1];
      HasRow(db.sales, inst.saleId) && db.sales[inst.saleId - 1].collaboratorId == cid
    ensures var db' := RecordClientPayment(db, instId, paid).value;
      PaidTotal(db'.sales, db'.installments, cid, paid.month, paid.year)
        == PaidTotal(db.sales, db.installments, cid, paid.month, paid.year) + db.installments[instId - 1].amount
    ensures forall month, year :: (month, year) != (paid.month, paid.year) ==>
      var db' := RecordClientPayment(db, instId, paid).value;
      PaidTotal(db'.sales, db'.installments, cid, month, year)
        == PaidTotal(db.sales, db.installments, cid, month, year)
  {
    var inst := db.installments[instId - 1];
    var inst' := MarkClientPaid(inst, paid).value;
    var db' := RecordClientPayment(db, instId, paid).value;
    assert db'.installments == db.installments[instId - 1 := inst'];
    assert db'.sales == db.sales;
    ClientPaymentContribution(db.sales, cid, paid.month, paid.year, inst, paid);
    PaidTotalUpdate(db.sales, db.installments, instId - 1, inst', cid, paid.month, paid.year);
    forall month, year | (month, year) != (paid.month, paid.year)
      ensures PaidTotal(db'.sales, db'.installments, cid, month, year)
        == PaidTotal(db.sales, db.installments, cid, month, year)
    {
      ClientPaymentContribution(db.sales, cid, month, year, inst, paid);
      PaidTotalUpdate(db.sales, db.installments, instId - 1, inst', cid, month, year);
    }
  }

  /** What a first client payment adds to one month's total: the amount in
      the payment's month, nothing elsewhere. */
  lemma ClientPaymentContribution(sales: seq<Sale>, cid: Id, month: int, year: int, inst: Installment, paid: Date)
    requires Valid(paid) && MarkClientPaid(inst, paid).Success? && !inst.clientPaid
    requires HasRow(sales, inst.saleId) && sales[inst.saleId - 1].collaboratorId == cid
    ensures Contribution(sales, cid, month, year, inst) == 0.0
    ensures Contribution(sales, cid, month, year, MarkClientPaid(inst, paid).value)
      == if (month, year) == (paid.month, paid.year) then inst.amount else 0.0
  {
  }

  /** The walk-through: Ana sells 3000 with the first payment due on
      2024-03-01, the client pays on 2024-03-03, and March 2024 shows a total
      of 3000 at the 1.4 tier with a commission of 1200. */
  lemma AnaScenario()
    ensures var r1 := RegisterCollaborator(EmptyDb, "Ana");
      r1.Success? && r1.value.1 == 1
      && var r2 := RegisterSale(r1.value.0, Some(1), "Cliente", 3000.0, Some(Date(2024, 3, 1)));
      r2.Success?
      && var r3 := RecordClientPayment(r2.value.0, 1, Date(2024, 3, 3));
      r3.Success?
      && r3.value.installments[0].collaboratorReceiptDate == Some(Date(2024, 3, 20))
      && CollaboratorSummary(r3.value, 1, 3, 2024)
         == Success(Summary(3000.0, 1.4, 1200.0, [1]))
  {
    var db1 := RegisterCollaborator(EmptyDb, "Ana").value.0;
    var db2 := RegisterSale(db1, Some(1), "Cliente", 3000.0, Some(Date(2024, 3, 1))).value.0;
    var db3 := RecordClientPayment(db2, 1, Date(2024, 3, 3)).value;
    assert db3.installments[..0] == [];
    assert PaidTotal(db3.sales, db3.installments, 1, 3, 2024) == 3000.0;
    assert db3.sales[..0] == [];
    assert SalesOf(db3.sales, 1) == [1];
  }
}
