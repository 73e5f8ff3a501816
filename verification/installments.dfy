/** The stored records and the field updates the payment handlers make. */
module Installments {
  import opened Wrappers
  import opened Calendar
  import Commission

  /** Integer primary key of a row. */
  type Id = int

  datatype Collaborator = Collaborator(name: string)

  datatype Sale = Sale(
    collaboratorId: Id,
    clientName: string,
    amount: real,
    clientFirstPaymentDate: Date)

  /** A commission installment row; `None` stands for a NULL date column. */
  datatype Installment = Installment(
    saleId: Id,
    index: int,
    clientDueDate: Date,
    clientPaid: bool,
    clientPaidDate: Option<Date>,
    collaboratorReceiptDate: Option<Date>,
    collaboratorPaid: bool,
    collaboratorPaidDate: Option<Date>,
    amount: real)

  datatype Error =
    | NotFound               // no row with the given id
    | MissingField           // a required form field is empty or zero
    | ReceiptDateOutOfRange  // the payout date would fall after year 9999

  /** The one installment a sale registration creates. */
  function FirstInstallment(saleId: Id, sale: Sale): (inst: Installment)
    requires Valid(sale.clientFirstPaymentDate)
    ensures PaymentConsistent(inst)
    ensures !inst.clientPaid && !inst.collaboratorPaid
  {
    Installment(
      saleId, 1, sale.clientFirstPaymentDate,
      false, None, None,
      false, None,
      sale.amount)
  }

  /** What every stored installment satisfies: a flag is set exactly when its
      date is, and the payout date is the one derived from the client's
      payment date (and absent before the client pays). */
  predicate PaymentConsistent(inst: Installment) {
    && Valid(inst.clientDueDate)
    && (inst.clientPaid <==> inst.clientPaidDate.Some?)
    && (inst.clientPaidDate.Some? ==>
          Valid(inst.clientPaidDate.value)
          && inst.collaboratorReceiptDate == Commission.ReceiptDate(inst.clientPaidDate.value)
          && inst.collaboratorReceiptDate.Some?)
    && (inst.clientPaidDate.None? ==> inst.collaboratorReceiptDate.None?)
    && (inst.collaboratorPaid <==> inst.collaboratorPaidDate.Some?)
    && (inst.collaboratorPaidDate.Some? ==> Valid(inst.collaboratorPaidDate.value))
  }

  /** The fields neither payment handler touches. */
  predicate SameTerms(a: Installment, b: Installment) {
    a.saleId == b.saleId && a.index == b.index
    && a.clientDueDate == b.clientDueDate && a.amount == b.amount
  }

  predicate SameClientPayment(a: Installment, b: Installment) {
    a.clientPaid == b.clientPaid && a.clientPaidDate == b.clientPaidDate
    && a.collaboratorReceiptDate == b.collaboratorReceiptDate
  }

  predicate SameCollaboratorPayment(a: Installment, b: Installment) {
    a.collaboratorPaid == b.collaboratorPaid && a.collaboratorPaidDate == b.collaboratorPaidDate
  }

  /** Recording the client's payment on `paid`: sets the flag, the date and the
      derived payout date, whatever was recorded before. */
  function MarkClientPaid(inst: Installment, paid: Date): (r: Result<Installment, Error>)
    requires Valid(paid)
    ensures r.Success? <==> Commission.PayoutDefined(paid)
    ensures r.Failure? ==> r.error == ReceiptDateOutOfRange
    ensures r.Success? ==>
      && r.value.clientPaid
      && r.value.clientPaidDate == Some(paid)
      && r.value.collaboratorReceiptDate == Commission.ReceiptDate(paid)
      && r.value.collaboratorReceiptDate.Some?
      && Before(paid, r.value.collaboratorReceiptDate.value)
      && SameTerms(inst, r.value)
      && SameCollaboratorPayment(inst, r.value)
  {
    match Commission.ReceiptDate(paid)
    case None => Failure(ReceiptDateOutOfRange)
    case Some(receipt) =>
      Success(inst.(clientPaid := true, clientPaidDate := Some(paid), collaboratorReceiptDate := Some(receipt)))
  }

  /** Recording the payout to the collaborator; the client payment is not
      consulted. */
  function MarkCollaboratorPaid(inst: Installment, paid: Date): (r: Installment)
    requires Valid(paid)
    ensures r.collaboratorPaid && r.collaboratorPaidDate == Some(paid)
    ensures SameTerms(inst, r) && SameClientPayment(inst, r)
  {
    inst.(collaboratorPaid := true, collaboratorPaidDate := Some(paid))
  }

  /** Both updates keep an installment consistent. */
  lemma MarkClientPaidConsistent(inst: Installment, paid: Date)
    requires PaymentConsistent(inst) && Valid(paid)
    requires MarkClientPaid(inst, paid).Success?
    ensures PaymentConsistent(MarkClientPaid(inst, paid).value)
  {
  }

  lemma MarkCollaboratorPaidConsistent(inst: Installment, paid: Date)
    requires PaymentConsistent(inst) && Valid(paid)
    ensures PaymentConsistent(MarkCollaboratorPaid(inst, paid))
  {
  }

  /** Recording a client payment twice keeps only the second one. */
  lemma MarkClientPaidLastWriteWins(inst: Installment, d1: Date, d2: Date)
    requires Valid(d1) && Valid(d2)
    requires MarkClientPaid(inst, d1).Success?
    ensures MarkClientPaid(MarkClientPaid(inst, d1).value, d2) == MarkClientPaid(inst, d2)
  {
  }

  lemma MarkCollaboratorPaidLastWriteWins(inst: Installment, d1: Date, d2: Date)
    requires Valid(d1) && Valid(d2)
    ensures MarkCollaboratorPaid(MarkCollaboratorPaid(inst, d1), d2) == MarkCollaboratorPaid(inst, d2)
  {
  }

  /** The two payments touch disjoint fields, so their order does not matter. */
  lemma PaymentsCommute(inst: Installment, client: Date, collaborator: Date)
    requires Valid(client) && Valid(collaborator)
    requires MarkClientPaid(inst, client).Success?
    ensures MarkClientPaid(MarkCollaboratorPaid(inst, collaborator), client)
      == Success(MarkCollaboratorPaid(MarkClientPaid(inst, client).value, collaborator))
  {
  }

  /** Nothing stops paying the collaborator before the client has paid. */
  lemma CollaboratorMayBePaidFirst(sale: Sale, saleId: Id, paid: Date)
    requires Valid(sale.clientFirstPaymentDate) && Valid(paid)
    ensures var inst := MarkCollaboratorPaid(FirstInstallment(saleId, sale), paid);
      inst.collaboratorPaid && !inst.clientPaid && PaymentConsistent(inst)
  {
  }
}
