/** The three tables and the operations the request handlers perform on
    them. Rows are never deleted, so the row with id `k` is element `k - 1`
    of its table. */
module Store {
  import opened Wrappers
  import opened Calendar
  import opened Installments

  datatype Db = Db(
    collaborators: seq<Collaborator>,
    sales: seq<Sale>,
    installments: seq<Installment>)

  const EmptyDb: Db := Db([], [], [])

  predicate HasRow<T>(table: seq<T>, id: Id) {
    1 <= id <= |table|
  }

  /** Installment `k + 1` was created together with sale `k + 1` and still
      carries its terms. */
  predicate InstallmentOfSale(sales: seq<Sale>, insts: seq<Installment>, k: int)
    requires 0 <= k < |sales| && 0 <= k < |insts|
  {
    var inst := insts[k];
    && inst.saleId == k + 1
    && inst.index == 1
    && inst.clientDueDate == sales[k].clientFirstPaymentDate
    && inst.amount == sales[k].amount
    && PaymentConsistent(inst)
  }

  /** Every sale has exactly one installment, whose amount is the sale's, and
      every installment is payment-consistent. */
  predicate WellFormed(db: Db) {
    && |db.installments| == |db.sales|
    && forall k :: 0 <= k < |db.sales| ==> InstallmentOfSale(db.sales, db.installments, k)
  }

  /** The installments that belong to sale `saleId`. */
  function InstallmentsOf(insts: seq<Installment>, saleId: Id): (r: seq<Installment>)
    ensures forall i :: 0 <= i < |r| ==> r[i].saleId == saleId
    ensures |r| <= |insts|
  {
    if insts == [] then []
    else
      var rest := InstallmentsOf(insts[..|insts| - 1], saleId);
      if insts[|insts| - 1].saleId == saleId then rest + [insts[|insts| - 1]] else rest
  }

  lemma {:induction false} InstallmentsOfSingle(insts: seq<Installment>, saleId: Id)
    requires forall k :: 0 <= k < |insts| ==> insts[k].saleId == k + 1
    requires HasRow(insts, saleId)
    ensures InstallmentsOf(insts, saleId) == [insts[saleId - 1]]
  {
    var n := |insts|;
    var init := insts[..n - 1];
    if saleId == n {
      InstallmentsOfNone(init, saleId);
    } else {
      InstallmentsOfSingle(init, saleId);
    }
  }

  lemma {:induction false} InstallmentsOfNone(insts: seq<Installment>, saleId: Id)
    requires forall k :: 0 <= k < |insts| ==> insts[k].saleId == k + 1
    requires saleId > |insts|
    ensures InstallmentsOf(insts, saleId) == []
  {
    if insts != [] {
      InstallmentsOfNone(insts[..|insts| - 1], saleId);
    }
  }

  /** In a well-formed store each sale owns exactly one installment, of the
      sale's full amount, and the sale amounts equal their installments' sum. */
  lemma WellFormedOneInstallmentPerSale(db: Db, saleId: Id)
    requires WellFormed(db) && HasRow(db.sales, saleId)
    ensures |InstallmentsOf(db.installments, saleId)| == 1
    ensures InstallmentsOf(db.installments, saleId)[0].amount == db.sales[saleId - 1].amount
    ensures InstallmentsOf(db.installments, saleId)[0].index == 1
  {
    forall k | 0 <= k < |db.installments|
      ensures db.installments[k].saleId == k + 1
    {
      assert InstallmentOfSale(db.sales, db.installments, k);
    }
    InstallmentsOfSingle(db.installments, saleId);
    assert InstallmentOfSale(db.sales, db.installments, saleId - 1);
  }

  lemma EmptyDbWellFormed()
    ensures WellFormed(EmptyDb)
  {
  }

  // ----- Registration -----

  /** `collaborator_new`: an empty name is refused; otherwise a row is added. */
  function RegisterCollaborator(db: Db, name: string): (r: Result<(Db, Id), Error>)
    ensures r.Failure? <==> name == []
    ensures r.Failure? ==> r.error == MissingField
    ensures r.Success? ==>
      var (db', id) := r.value;
      && |db'.collaborators| == |db.collaborators| + 1
      && HasRow(db'.collaborators, id) && !HasRow(db.collaborators, id)
      && db'.collaborators[id - 1].name == name
      && db'.collaborators[..|db.collaborators|] == db.collaborators
      && db'.sales == db.sales && db'.installments == db.installments
  {
    if name == [] then Failure(MissingField)
    else Success((db.(collaborators := db.collaborators + [Collaborator(name)]), |db.collaborators| + 1))
  }

  /** `sale_new`: refuses only an absent collaborator id, an empty client
      name, a zero amount or an absent date; the collaborator id is not looked
      up and a negative amount is stored as is. On success the sale and its
      single installment are added together. */
  function RegisterSale(db: Db, collaboratorId: Option<Id>, clientName: string, amount: real,
                        firstPayment: Option<Date>): (r: Result<(Db, Id), Error>)
    requires firstPayment.Some? ==> Valid(firstPayment.value)
    ensures r.Failure? <==>
      collaboratorId.None? || clientName == [] || amount == 0.0 || firstPayment.None?
    ensures r.Failure? ==> r.error == MissingField
    ensures r.Success? ==>
      var (db', id) := r.value;
      && id == |db.sales| + 1
      && db'.sales == db.sales + [Sale(collaboratorId.value, clientName, amount, firstPayment.value)]
      && |db'.installments| == |db.installments| + 1
      && db'.installments[..|db.installments|] == db.installments
      && db'.collaborators == db.collaborators
      && var inst := db'.installments[|db.installments|];
         inst.saleId == id && inst.index == 1 && inst.amount == amount
         && inst.clientDueDate == firstPayment.value
         && !inst.clientPaid && !inst.collaboratorPaid
  {
    if collaboratorId.None? || clientName == [] || amount == 0.0 || firstPayment.None? then
      Failure(MissingField)
    else
      var sale := Sale(collaboratorId.value, clientName, amount, firstPayment.value);
      var id := |db.sales| + 1;
      Success((db.(sales := db.sales + [sale],
                   installments := db.installments + [FirstInstallment(id, sale)]), id))
  }

  // ----- Payments -----

  /** `mark_client_paid` on installment `instId`. */
  function RecordClientPayment(db: Db, instId: Id, paid: Date): (r: Result<Db, Error>)
    requires Valid(paid)
    ensures !HasRow(db.installments, instId) ==> r == Failure(NotFound)
    ensures HasRow(db.installments, instId) ==>
      (r.Success? <==> MarkClientPaid(db.installments[instId - 1], paid).Success?)
    ensures r.Success? ==>
      && HasRow(db.installments, instId)
      && r.value.installments == db.installments[instId - 1 := MarkClientPaid(db.installments[instId - 1], paid).value]
      && r.value.sales == db.sales && r.value.collaborators == db.collaborators
  {
    if !HasRow(db.installments, instId) then Failure(NotFound)
    else
      match MarkClientPaid(db.installments[instId - 1], paid)
      case Failure(e) => Failure(e)
      case Success(inst) => Success(db.(installments := db.installments[instId - 1 := inst]))
  }

  /** `mark_collaborator_paid` on installment `instId`. */
  function RecordCollaboratorPayment(db: Db, instId: Id, paid: Date): (r: Result<Db, Error>)
    requires Valid(paid)
    ensures r.Failure? <==> !HasRow(db.installments, instId)
    ensures r.Failure? ==> r.error == NotFound
    ensures r.Success? ==>
      && r.value.installments == db.installments[instId - 1 := MarkCollaboratorPaid(db.installments[instId - 1], paid)]
      && r.value.sales == db.sales && r.value.collaborators == db.collaborators
  {
    if !HasRow(db.installments, instId) then Failure(NotFound)
    else Success(db.(installments := db.installments[instId - 1 := MarkCollaboratorPaid(db.installments[instId - 1], paid)]))
  }

  // ----- Invariant preservation -----

  lemma RegisterCollaboratorPreservesWellFormed(db: Db, name: string)
    requires WellFormed(db)
    requires RegisterCollaborator(db, name).Success?
    ensures WellFormed(RegisterCollaborator(db, name).value.0)
  {
  }

  lemma RegisterSalePreservesWellFormed(db: Db, collaboratorId: Option<Id>, clientName: string,
                                        amount: real, firstPayment: Option<Date>)
    requires WellFormed(db)
    requires firstPayment.Some? ==> Valid(firstPayment.value)
    requires RegisterSale(db, collaboratorId, clientName, amount, firstPayment).Success?
    ensures WellFormed(RegisterSale(db, collaboratorId, clientName, amount, firstPayment).value.0)
  {
    var db' := RegisterSale(db, collaboratorId, clientName, amount, firstPayment).value.0;
    forall k | 0 <= k < |db'.sales|
      ensures InstallmentOfSale(db'.sales, db'.installments, k)
    {
      if k < |db.sales| {
        assert InstallmentOfSale(db.sales, db.installments, k);
      }
    }
  }

  lemma RecordClientPaymentPreservesWellFormed(db: Db, instId: Id, paid: Date)
    requires WellFormed(db) && Valid(paid)
    requires RecordClientPayment(db, instId, paid).Success?
    ensures WellFormed(RecordClientPayment(db, instId, paid).value)
  {
    var db' := RecordClientPayment(db, instId, paid).value;
    forall k | 0 <= k < |db'.sales|
      ensures InstallmentOfSale(db'.sales, db'.installments, k)
    {
      assert InstallmentOfSale(db.sales, db.installments, k);
      if k == instId - 1 {
        MarkClientPaidConsistent(db.installments[k], paid);
      }
    }
  }

  lemma RecordCollaboratorPaymentPreservesWellFormed(db: Db, instId: Id, paid: Date)
    requires WellFormed(db) && Valid(paid)
    requires RecordCollaboratorPayment(db, instId, paid).Success?
    ensures WellFormed(RecordCollaboratorPayment(db, instId, paid).value)
  {
    var db' := RecordCollaboratorPayment(db, instId, paid).value;
    forall k | 0 <= k < |db'.sales|
      ensures InstallmentOfSale(db'.sales, db'.installments, k)
    {
      assert InstallmentOfSale(db.sales, db.installments, k);
    }
  }

  /** Recording a client payment twice on one installment stores only the
      second date and its payout date. */
  lemma RecordClientPaymentLastWriteWins(db: Db, instId: Id, d1: Date, d2: Date)
    requires Valid(d1) && Valid(d2)
    requires RecordClientPayment(db, instId, d1).Success?
    ensures RecordClientPayment(RecordClientPayment(db, instId, d1).value, instId, d2)
      == RecordClientPayment(db, instId, d2)
  {
    MarkClientPaidLastWriteWins(db.installments[instId - 1], d1, d2);
    var db1 := RecordClientPayment(db, instId, d1).value;
    if MarkClientPaid(db.installments[instId - 1], d2).Success? {
      assert db1.installments[instId - 1 := MarkClientPaid(db1.installments[instId - 1], d2).value]
        == db.installments[instId - 1 := MarkClientPaid(db.installments[instId - 1], d2).value];
    }
  }

  /** A sale for a collaborator id with no row, and with a negative amount, is
      accepted and stored. */
  lemma RegisterSaleDoesNotCheckCollaborator()
    ensures var r := RegisterSale(EmptyDb, Some(42), "Cliente", -10.0, Some(Date(2024, 1, 1)));
      r.Success? && !HasRow(r.value.0.collaborators, 42)
      && r.value.0.sales == [Sale(42, "Cliente", -10.0, Date(2024, 1, 1))]
  {
  }
}
