/** The order status machine: who may move an order from which status to which. */
module OrderMachine {
  datatype OrderStatus =
    | PendingPayment | Paid | Processing | Shipped | Completed
    | Cancelled | Disputed | Refunded | PartiallyRefunded

  datatype Role = SuperAdmin | Admin | Merchant | Customer | System

  function AllowedTransitions(role: Role, from: OrderStatus): set<OrderStatus> {
    match role
    case System => if from.PendingPayment? then {Paid} else {}
    case Merchant =>
      (match from
       case Paid => {Processing}
       case Processing => {Shipped}
       case _ => {})
    case Customer =>
      (match from
       case PendingPayment => {Cancelled}
       case Paid => {Cancelled, Disputed}
       case Processing => {Disputed}
       case Shipped => {Completed, Disputed}
       case _ => {})
    case Admin | SuperAdmin =>
      (match from
       case PendingPayment => {Cancelled}
       case Paid => {Processing, Cancelled, Disputed, Refunded}
       case Processing => {Shipped, Cancelled, Disputed, Refunded}
       case Shipped => {Completed, Disputed, Refunded}
       case Completed => {Refunded, PartiallyRefunded}
       case Disputed => {Refunded, PartiallyRefunded, Completed, Cancelled}
       case _ => {})
  }

  predicate CanTransition(role: Role, from: OrderStatus, to: OrderStatus) {
    to in AllowedTransitions(role, from)
  }

  /** How far along its life an order is. */
  function Rank(status: OrderStatus): nat {
    match status
    case PendingPayment => 0
    case Paid => 1
    case Processing => 2
    case Shipped => 3
    case Disputed => 4
    case Completed => 5
    case Cancelled | Refunded | PartiallyRefunded => 6
  }

  /** Every transition of every role moves strictly forward, so no status is ever entered twice. */
  lemma {:induction false} TransitionsMoveForward(role: Role, from: OrderStatus, to: OrderStatus)
    ensures CanTransition(role, from, to) ==> Rank(from) < Rank(to)
    ensures CanTransition(role, from, Paid) <==> role.System? && from.PendingPayment?
  {
  }

  /** Who may make a move: for each, the roles and nobody else. */
  predicate MovedBy(from: OrderStatus, to: OrderStatus, roles: set<Role>) {
    forall role: Role :: CanTransition(role, from, to) <==> role in roles
  }

  /**
   * The life of an order, move by move, with exactly the roles that may make each move: only the system pays it;
   * merchants and administrators process and ship it; customers and administrators complete it; who may cancel
   * depends on how far it is; administrators alone return money. Every other move is closed to everybody.
   */
  lemma {:induction false} MovesExactly(from: OrderStatus, to: OrderStatus)
    ensures var admins := {SuperAdmin, Admin};
            MovedBy(from, to,
              match (from, to)
              case (PendingPayment, Paid) => {System}
              case (PendingPayment, Cancelled) => {Customer} + admins
              case (Paid, Processing) => {Merchant} + admins
              case (Paid, Cancelled) => {Customer} + admins
              case (Paid, Disputed) => {Customer} + admins
              case (Processing, Shipped) => {Merchant} + admins
              case (Processing, Disputed) => {Customer} + admins
              case (Shipped, Completed) => {Customer} + admins
              case (Shipped, Disputed) => {Customer} + admins
              case (Processing, Cancelled) => admins
              case (Disputed, Completed) => admins
              case (Disputed, Cancelled) => admins
              case (Completed, PartiallyRefunded) => admins
              case (Disputed, PartiallyRefunded) => admins
              case (_, Refunded) => if from in {Paid, Processing, Shipped, Completed, Disputed} then admins else {}
              case _ => {})
  {
  }

  /** Roles that can carry an order along a path of moves, each move made by one of the roles. */
  predicate Carries(roles: set<Role>, path: seq<OrderStatus>) {
    forall i :: 0 < i < |path| ==> exists role :: role in roles && CanTransition(role, path[i - 1], path[i])
  }

  /** The ordinary life of an order needs the system, then merchant and customer together, or an administrator alone. */
  lemma {:induction false} OrdinaryLife(roles: set<Role>)
    ensures Carries(roles, [PendingPayment, Paid, Processing, Shipped, Completed]) <==>
              && System in roles
              && (Admin in roles || SuperAdmin in roles || (Merchant in roles && Customer in roles))
  {
    var path := [PendingPayment, Paid, Processing, Shipped, Completed];
    if Carries(roles, path) {
      var a :| a in roles && CanTransition(a, path[0], path[1]);
      var b :| b in roles && CanTransition(b, path[1], path[2]);
      var c :| c in roles && CanTransition(c, path[2], path[3]);
      var d :| d in roles && CanTransition(d, path[3], path[4]);
    } else {
      var i :| 0 < i < |path| && !exists role :: role in roles && CanTransition(role, path[i - 1], path[i]);
      assert System in roles ==> i != 1 by {
        assert CanTransition(System, PendingPayment, Paid);
      }
      assert CanTransition(Admin, path[i - 1], path[i]) || i == 1;
      assert CanTransition(SuperAdmin, path[i - 1], path[i]) || i == 1;
      assert CanTransition(Merchant, path[i - 1], path[i]) || CanTransition(Customer, path[i - 1], path[i]) || i == 1;
    }
  }
}
