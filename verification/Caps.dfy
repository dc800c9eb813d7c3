/** Capability records, rights and the CPU-time budget carried inside a Sched capability. */
module Caps {
  import opened Options

  const U32_MAX: nat := 0xFFFF_FFFF

  datatype CapType =
    | Null | Untyped | Frame | CNode | Endpoint | Notification | Task | Sched | Reply
    | AddrSpace | VSpace | FNode | Device | IrqControl | Domain | SharedRo

  datatype Right =
    | READ | WRITE | EXECUTE | MAP | GRANT | RETYPE | SEND | RECV | SIGNAL | DERIVE | ENTER | WAIT

  type Rights = set<Right>

  /** `size`, `watermark` and `aux` mean what the type says: frames and frames consumed for an
      Untyped, budget, consumption and period for a Sched. */
  datatype RawCap = RawCap(ty: CapType, rights: Rights, objref: nat, size: nat, watermark: nat, aux: nat, badge: nat)

  const NULL_CAP: RawCap := RawCap(Null, {}, 0, 0, 0, 0, 0)

  datatype CapError = OutOfBounds | EmptySlot | WrongType | SlotOccupied | InsufficientRights | OutOfBudget

  datatype Result<+T> = Ok(value: T) | Err(error: CapError) {
    predicate IsFailure() { Err? }
    function PropagateFailure<U>(): Result<U> requires Err? { Err(error) }
    function Extract(): T requires Ok? { value }
  }

  function Need(b: bool, e: CapError): (r: Result<()>) {
    if b then Ok(()) else Err(e)
  }

  /** Types whose per-capability state or single-use meaning forbids duplication. */
  predicate Duplicable(t: CapType) {
    !(t.Untyped? || t.Sched? || t.Reply? || t.Domain? || t.SharedRo?)
  }

  predicate Retypeable(t: CapType) {
    !(t.Null? || t.Untyped? || t.Reply? || t.IrqControl? || t.Sched? || t.Domain? || t.SharedRo?)
  }

  /** Destroying the last capability of these types zeroes the frames it names. */
  predicate Zeroable(t: CapType) {
    !(t.Untyped? || t.Sched? || t.Reply? || t.Domain? || t.SharedRo?)
  }

  function DefaultRights(t: CapType): (r: Rights) {
    match t
    case Untyped => {RETYPE}
    case Frame => {READ, WRITE, MAP, GRANT, DERIVE}
    case CNode => {DERIVE, GRANT}
    case Endpoint => {SEND, RECV, GRANT, DERIVE}
    case Notification => {SIGNAL, RECV, DERIVE}
    case _ => {DERIVE}
  }

  /** CPU time: `capacity` units per `period`, `consumed` of them spent in the current one. */
  datatype Budget = Budget(capacity: nat, consumed: nat, period: nat) {
    predicate IsDepleted() { consumed >= capacity }

    function Remaining(): (r: nat) { if consumed >= capacity then 0 else capacity - consumed }

    function Charge(n: nat): (b: Budget) {
      this.(consumed := if consumed + n > U32_MAX then U32_MAX else consumed + n)
    }

    function Replenish(): (b: Budget) { this.(consumed := 0) }

    /** The debited allotment and the child carved out of it. */
    function Split(amount: nat): (r: Option<(Budget, Budget)>) {
      if amount == 0 || amount > Remaining() then None
      else Some((this.(capacity := capacity - amount), Budget(amount, 0, period)))
    }

    /** Both sides after `amount` moved from `this` to `dst`. */
    function Delegate(dst: Budget, amount: nat): (r: Option<(Budget, Budget)>) {
      if amount == 0 || amount > Remaining() || dst.capacity + amount > U32_MAX then None
      else Some((this.(capacity := capacity - amount), dst.(capacity := dst.capacity + amount)))
    }
  }

  /** The allotment after the charges `ns`, in order. */
  function Charged(b: Budget, ns: seq<nat>): (r: Budget) {
    if ns == [] then b else Charged(b, ns[..|ns| - 1]).Charge(ns[|ns| - 1])
  }

  function Sum(ns: seq<nat>): (n: nat) {
    if ns == [] then 0 else Sum(ns[..|ns| - 1]) + ns[|ns| - 1]
  }

  /** A period's charges add up and never wrap: however large they are, what is left is the capacity less all of
      them, the allotment is depleted exactly when they reach the capacity, and only a new period restores it. */
  lemma {:induction false} ChargesAddUp(b: Budget, ns: seq<nat>)
    requires b.capacity <= U32_MAX && b.consumed <= U32_MAX
    ensures var r, spent := Charged(b, ns), b.consumed + Sum(ns);
      && r.consumed == (if spent <= 0xFFFF_FFFF then spent else 0xFFFF_FFFF)
      && r.Remaining() == (if spent < b.capacity then b.capacity - spent else 0)
      && (r.IsDepleted() <==> spent >= b.capacity)
      && r.capacity == b.capacity && r.period == b.period
      && r.Replenish() == Budget(b.capacity, 0, b.period)
  {
    if ns != [] { ChargesAddUp(b, ns[..|ns| - 1]); }
  }

  function BudgetOf(c: RawCap): (b: Budget) {
    Budget(c.size, c.watermark, c.aux)
  }

  function WithBudget(c: RawCap, b: Budget): (r: RawCap) {
    c.(size := b.capacity, watermark := b.consumed, aux := b.period)
  }
}
