/** The billing screen: credit packages, the credit cost of each day's
    operations, and the two ways of paying for credits with their effect on
    the balance and the transaction history. */
module Billing {
  import opened Wrappers

  datatype Package = Package(id: int, name: string, credits: nat, price: nat)

  /** The four packages on offer: credits and price in KES. */
  const Packages: seq<Package> := [
    Package(1, "Basic", 1000, 500),
    Package(2, "Standard", 5000, 2000),
    Package(3, "Premium", 10000, 3500),
    Package(4, "Enterprise", 25000, 7500)]

  /** Bigger packages cost more and give a lower price per credit. */
  lemma PackagesGetCheaper()
    ensures forall i, j :: 0 <= i < j < |Packages| ==>
      Packages[i].credits < Packages[j].credits && Packages[i].price < Packages[j].price &&
      Packages[j].price * Packages[i].credits < Packages[i].price * Packages[j].credits
  {
  }

  // ------------------------------------------------------------------ usage

  /** One day of the usage history. */
  datatype Day = Day(date: string, idVerifications: int, livenessChecks: int, textExtractions: int, totalCredits: int)

  /** Credits per operation: 5 for an ID verification, 3 for a liveness
      check, 2 for a text extraction. */
  function IdCredits(d: Day): int { d.idVerifications * 5 }
  function LivenessCredits(d: Day): int { d.livenessChecks * 3 }
  function ExtractionCredits(d: Day): int { d.textExtractions * 2 }

  /** What a day costs. */
  function DayCredits(d: Day): int {
    IdCredits(d) + LivenessCredits(d) + ExtractionCredits(d)
  }

  predicate TotalFilled(d: Day) {
    d.totalCredits == DayCredits(d)
  }

  /** The `forEach` that fills in each day's total in place. */
  method FillTotals(days: array<Day>)
    modifies days
    ensures forall i :: 0 <= i < days.Length ==>
      days[i] == old(days[i]).(totalCredits := DayCredits(old(days[i])))
  {
    for i := 0 to days.Length
      invariant forall k :: 0 <= k < i ==> days[k] == old(days[k]).(totalCredits := DayCredits(old(days[k])))
      invariant forall k :: i <= k < days.Length ==> days[k] == old(days[k])
    {
      days[i] := days[i].(totalCredits := DayCredits(days[i]));
    }
  }

  /** Filling in the totals changes no count and makes every total right. */
  lemma FilledDays(before: seq<Day>, after: seq<Day>)
    requires |after| == |before|
    requires forall i :: 0 <= i < |before| ==> after[i] == before[i].(totalCredits := DayCredits(before[i]))
    ensures forall i :: 0 <= i < |after| ==> TotalFilled(after[i])
    ensures forall i :: 0 <= i < |after| ==> DayCredits(after[i]) == DayCredits(before[i])
  {
  }

  /** `days.reduce((sum, day) => sum + f(day), 0)` */
  function SumOf(days: seq<Day>, f: Day -> int): int {
    if days == [] then 0 else SumOf(days[..|days| - 1], f) + f(days[|days| - 1])
  }

  function IdCount(d: Day): int { d.idVerifications }
  function LivenessCount(d: Day): int { d.livenessChecks }
  function ExtractionCount(d: Day): int { d.textExtractions }
  function TotalOf(d: Day): int { d.totalCredits }

  /** The usage tab's total, the sum of the three per-operation totals. */
  function UsageTotal(days: seq<Day>): int {
    SumOf(days, IdCredits) + SumOf(days, LivenessCredits) + SumOf(days, ExtractionCredits)
  }

  /** The usage tab's total is `5*Σid + 3*Σliveness + 2*Σtext`, it is the sum
      of the days' costs, and, once the totals are filled in, the sum of
      the daily totals. */
  lemma {:induction false} UsageTotalIsSumOfDays(days: seq<Day>)
    ensures UsageTotal(days) ==
      5 * SumOf(days, IdCount) + 3 * SumOf(days, LivenessCount) + 2 * SumOf(days, ExtractionCount)
    ensures UsageTotal(days) == SumOf(days, DayCredits)
    ensures (forall i :: 0 <= i < |days| ==> TotalFilled(days[i])) ==> UsageTotal(days) == SumOf(days, TotalOf)
  {
    if days != [] {
      var n := |days| - 1;
      UsageTotalIsSumOfDays(days[..n]);
      if forall i :: 0 <= i < |days| ==> TotalFilled(days[i]) {
        assert forall i :: 0 <= i < n ==> days[..n][i] == days[i];
      }
    }
  }

  // -------------------------------------------------------------- payments

  datatype CreditInfo = CreditInfo(totalPurchased: int, remaining: int, usedThisMonth: int, plan: string)

  /** A history entry; `via` is its `method`. */
  datatype Transaction = Transaction(
    id: string, date: string, amount: int, status: string, via: string, reference: string, credits: int)

  /** The balance after buying `credits`. */
  function Credited(c: CreditInfo, credits: nat): (r: CreditInfo)
    ensures r.totalPurchased == c.totalPurchased + credits && r.remaining == c.remaining + credits
    ensures r.usedThisMonth == c.usedThisMonth && r.plan == c.plan
  {
    c.(totalPurchased := c.totalPurchased + credits, remaining := c.remaining + credits)
  }

  /** A purchase never changes how many of the purchased credits are spent:
      `totalPurchased - remaining` stays the same, and two purchases add up. */
  lemma CreditedKeepsSpent(c: CreditInfo, a: nat, b: nat)
    ensures Credited(c, a).totalPurchased - Credited(c, a).remaining == c.totalPurchased - c.remaining
    ensures Credited(Credited(c, a), b) == Credited(c, a + b)
  {
  }

  /** The history entry of a payment for `p`. */
  function Receipt(p: Package, id: string, date: string, status: string, via: string, reference: string): (t: Transaction)
    ensures t.amount == p.price && t.credits == p.credits
  {
    Transaction(id, date, p.price, status, via, reference, p.credits)
  }

  // -------------------------------------------------------------- the screen

  class BillingScreen {
    var creditInfo: CreditInfo
    var history: seq<Transaction>
    var showPaymentModal: bool
    var paymentMethod: string
    var selectedPackage: Option<Package>
    var paymentProcessing: bool
    var paymentComplete: bool
    var phoneNumber: string
    /** The package the payment in progress was started with, as the
        awaiting handler holds it. */
    var charging: Option<Package>

    predicate Valid()
      reads this
    {
      paymentProcessing ==> charging.Some?
    }

    /** The screen once the credit information and the history are loaded. */
    constructor (info: CreditInfo, loaded: seq<Transaction>)
      ensures Valid()
      ensures creditInfo == info && history == loaded
      ensures !showPaymentModal && paymentMethod == "mpesa" && selectedPackage == None
      ensures !paymentProcessing && !paymentComplete && phoneNumber == "" && charging == None
    {
      creditInfo := info;
      history := loaded;
      showPaymentModal := false;
      paymentMethod := "mpesa";
      selectedPackage := None;
      paymentProcessing := false;
      paymentComplete := false;
      phoneNumber := "";
      charging := None;
    }

    /** "Purchase Credits" / "Buy Credits": the dialog with no package
        chosen. */
    method OpenPurchase()
      requires Valid()
      modifies this`showPaymentModal, this`selectedPackage
      ensures Valid()
      ensures showPaymentModal && selectedPackage == None
    {
      selectedPackage := None;
      showPaymentModal := true;
    }

    /** A click on a package card. */
    method SelectPackage(p: Package)
      requires Valid() && p in Packages
      modifies this`selectedPackage
      ensures Valid()
      ensures selectedPackage == Some(p)
    {
      selectedPackage := Some(p);
    }

    /** The M-PESA and bank transfer tabs of the dialog. */
    method SetPaymentMethod(m: string)
      requires Valid()
      modifies this`paymentMethod
      ensures Valid() && paymentMethod == m
    {
      paymentMethod := m;
    }

    /** The phone input, disabled while a payment is processing. */
    method SetPhone(p: string)
      requires Valid()
      modifies this`phoneNumber
      ensures Valid()
      ensures phoneNumber == if old(paymentProcessing) then old(phoneNumber) else p
    {
      if !paymentProcessing {
        phoneNumber := p;
      }
    }

    /** `handleMpesaPayment` up to its wait: without a phone number or a
        package nothing happens; otherwise the payment is processing for
        the chosen package. */
    method PayWithMpesa()
      requires Valid()
      modifies this`paymentProcessing, this`charging
      ensures Valid()
      ensures phoneNumber == "" || selectedPackage.None? ==>
        paymentProcessing == old(paymentProcessing) && charging == old(charging)
      ensures phoneNumber != "" && selectedPackage.Some? ==> paymentProcessing && charging == selectedPackage
    {
      if phoneNumber != "" && selectedPackage.Some? {
        paymentProcessing := true;
        charging := selectedPackage;
      }
    }

    /** `handleMpesaPayment` after its wait, with the invoice number, today's
        date and the reference it generates: the package's credits are
        added to the balance and one paid entry goes in front of the
        history. */
    method MpesaConfirmed(invoice: string, today: string, reference: string)
      requires Valid() && paymentProcessing
      modifies this`paymentProcessing, this`paymentComplete, this`creditInfo, this`history
      ensures Valid()
      ensures !paymentProcessing && paymentComplete
      ensures creditInfo == Credited(old(creditInfo), charging.value.credits)
      ensures history == [Receipt(charging.value, invoice, today, "paid", "M-PESA", reference)] + old(history)
    {
      paymentProcessing := false;
      paymentComplete := true;
      creditInfo := Credited(creditInfo, charging.value.credits);
      history := [Receipt(charging.value, invoice, today, "paid", "M-PESA", reference)] + history;
    }

    /** The timer two seconds after an M-PESA payment: the dialog closes and
        is cleared. */
    method PaymentReset()
      requires Valid()
      modifies this`showPaymentModal, this`paymentComplete, this`selectedPackage, this`phoneNumber
      ensures Valid()
      ensures !showPaymentModal && !paymentComplete && selectedPackage == None && phoneNumber == ""
    {
      showPaymentModal := false;
      paymentComplete := false;
      selectedPackage := None;
      phoneNumber := "";
    }

    /** `handleBankTransferNotification`, offered once a package is chosen:
        one pending entry with the bank reference goes in front of the
        history and the dialog closes; the balance is not touched. */
    method BankTransferNotice(invoice: string, today: string, bankReference: string)
      requires Valid() && selectedPackage.Some?
      modifies this`history, this`showPaymentModal, this`selectedPackage
      ensures Valid()
      ensures history == [Receipt(old(selectedPackage).value, invoice, today, "pending", "Bank Transfer", bankReference)] + old(history)
      ensures !showPaymentModal && selectedPackage == None
    {
      history := [Receipt(selectedPackage.value, invoice, today, "pending", "Bank Transfer", bankReference)] + history;
      showPaymentModal := false;
      selectedPackage := None;
    }

    /** The dialog's close button, ignored while a payment is processing. */
    method CloseModal()
      requires Valid()
      modifies this`showPaymentModal, this`selectedPackage
      ensures Valid()
      ensures old(paymentProcessing) ==> showPaymentModal == old(showPaymentModal) && selectedPackage == old(selectedPackage)
      ensures !old(paymentProcessing) ==> !showPaymentModal && selectedPackage == None
    {
      if !paymentProcessing {
        showPaymentModal := false;
        selectedPackage := None;
      }
    }
  }
}
