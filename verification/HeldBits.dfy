// The held-bits rule: a member switches only permission bits they hold themselves.
module HeldBits {
  import opened Prelude

  /**
   * A `bigint` as two's complement: bit `b` is set when `b` is among the flips of an all-zero (or, when negative,
   * all-one) pattern. Stored values can be negative, so both kinds occur.
   */
  datatype Bits = Bits(flips: set<nat>, negative: bool) {
    predicate Has(b: nat) {
      (b in flips) != negative
    }
  }

  const ZERO := Bits({}, false)

  const ALL_PERMISSIONS := Bits({0, 1, 2, 3, 4, 5, 6, 7, 10, 11, 12, 13, 14, 15, 20, 21, 22, 23, 24, 25, 26}, false)

  function Complement(x: Bits): (r: Bits)
    ensures forall b: nat :: r.Has(b) <==> !x.Has(b)
  {
    Bits(x.flips, !x.negative)
  }

  function And(x: Bits, y: Bits): (r: Bits)
    ensures forall b: nat :: r.Has(b) <==> x.Has(b) && y.Has(b)
  {
    if x.negative && y.negative then Bits(x.flips + y.flips, true)
    else if x.negative then Bits(y.flips - x.flips, false)
    else if y.negative then Bits(x.flips - y.flips, false)
    else Bits(x.flips * y.flips, false)
  }

  function Or(x: Bits, y: Bits): (r: Bits)
    ensures forall b: nat :: r.Has(b) <==> x.Has(b) || y.Has(b)
  {
    Complement(And(Complement(x), Complement(y)))
  }

  /** The bits set in `x` and clear in `y`: `x & ~y`. */
  function Minus(x: Bits, y: Bits): (r: Bits)
    ensures forall b: nat :: r.Has(b) <==> x.Has(b) && !y.Has(b)
  {
    And(x, Complement(y))
  }

  lemma {:induction false} BoundedSet(s: set<nat>) returns (n: nat)
    ensures forall b | b in s :: b < n
  {
    if s == {} {
      n := 0;
    } else {
      var x :| x in s;
      var m := BoundedSet(s - {x});
      n := if x < m then m else x + 1;
      forall b | b in s ensures b < n {
        if b != x { assert b in s - {x}; }
      }
    }
  }

  /** Bit patterns are equal as numbers exactly when they agree on every bit. */
  lemma SameBits(x: Bits, y: Bits)
    ensures x == y <==> forall b: nat :: x.Has(b) <==> y.Has(b)
  {
    if forall b: nat :: x.Has(b) <==> y.Has(b) {
      var n := BoundedSet(x.flips + y.flips);
      assert n !in x.flips && n !in y.flips;
      assert x.Has(n) <==> y.Has(n);
      forall b: nat ensures b in x.flips <==> b in y.flips {
        assert x.Has(b) <==> y.Has(b);
      }
      assert x.flips == y.flips;
    }
  }

  predicate HoldsAll(held: Bits) {
    And(held, ALL_PERMISSIONS) == ALL_PERMISSIONS
  }

  /** A holder of all bits 0 to 7, 10 to 15 and 20 to 26 has no locked bit; others may not switch what they lack. */
  lemma LockedIff(held: Bits, b: nat)
    ensures Locked(held, b) <==>
            && !held.Has(b)
            && exists p: nat :: (p <= 7 || 10 <= p <= 15 || 20 <= p <= 26) && !held.Has(p)
  {
    hide And;
    SameBits(And(held, ALL_PERMISSIONS), ALL_PERMISSIONS);
    forall p: nat ensures ALL_PERMISSIONS.Has(p) <==> p <= 7 || 10 <= p <= 15 || 20 <= p <= 26 {
    }
  }

  function UnheldBits(held: Bits): Bits {
    if HoldsAll(held) then ZERO else Complement(held)
  }

  datatype Refusal = CannotGrant | CannotDeny | CannotChange

  datatype OverrideBits = OverrideBits(allow: Bits, deny: Bits)

  function RoleBitsChangeRefusal(held: Bits, before: Bits, after: Bits): Option<Refusal> {
    var unheld := UnheldBits(held);
    if And(Minus(after, before), unheld) != ZERO then Some(CannotGrant)
    else if And(Minus(before, after), unheld) != ZERO then Some(CannotChange)
    else None
  }

  function BitsOf(o: Option<OverrideBits>): OverrideBits {
    if o.Some? then o.value else OverrideBits(ZERO, ZERO)
  }

  function OverrideChangeRefusal(held: Bits, before: Option<OverrideBits>, after: Option<OverrideBits>)
    : Option<Refusal>
  {
    var o, n, unheld := BitsOf(before), BitsOf(after), UnheldBits(held);
    if And(Minus(n.allow, o.allow), unheld) != ZERO then Some(CannotGrant)
    else if And(Minus(n.deny, o.deny), unheld) != ZERO then Some(CannotDeny)
    else if And(Or(Minus(o.allow, n.allow), Minus(o.deny, n.deny)), unheld) != ZERO then Some(CannotChange)
    else None
  }

  // ---- What the rule accepts ----

  /** An actor short of every permission may not switch `b`. */
  predicate Locked(held: Bits, b: nat) {
    !HoldsAll(held) && !held.Has(b)
  }

  ghost predicate TurnsOn(held: Bits, before: Bits, after: Bits) {
    exists b: nat :: Locked(held, b) && !before.Has(b) && after.Has(b)
  }

  lemma OnIffNonZero(held: Bits, before: Bits, after: Bits)
    ensures And(Minus(after, before), UnheldBits(held)) != ZERO <==> TurnsOn(held, before, after)
  {
    hide And, Minus, HoldsAll;
    var x := And(Minus(after, before), UnheldBits(held));
    SameBits(x, ZERO);
    forall b: nat ensures UnheldBits(held).Has(b) <==> Locked(held, b) {
    }
    forall b: nat ensures x.Has(b) <==> Locked(held, b) && !before.Has(b) && after.Has(b) {
      assert UnheldBits(held).Has(b) <==> Locked(held, b);
    }
  }

  /** Granting is refused before changing; an edit passes exactly when every locked bit stays as it was. */
  lemma RoleRefusalIff(held: Bits, before: Bits, after: Bits)
    ensures RoleBitsChangeRefusal(held, before, after)
         == if TurnsOn(held, before, after) then Some(CannotGrant)
            else if TurnsOn(held, after, before) then Some(CannotChange) else None
    ensures RoleBitsChangeRefusal(held, before, after).None?
       <==> forall b: nat :: Locked(held, b) ==> (before.Has(b) <==> after.Has(b))
  {
    OnIffNonZero(held, before, after);
    OnIffNonZero(held, after, before);
    hide And, Minus, HoldsAll, UnheldBits;
  }

  lemma OrNonZero(x: Bits, y: Bits, unheld: Bits)
    ensures And(Or(x, y), unheld) != ZERO <==> And(x, unheld) != ZERO || And(y, unheld) != ZERO
  {
    hide And, Or;
    SameBits(And(Or(x, y), unheld), ZERO);
    SameBits(And(x, unheld), ZERO);
    SameBits(And(y, unheld), ZERO);
    if And(Or(x, y), unheld) != ZERO {
      var b: nat :| And(Or(x, y), unheld).Has(b);
      assert And(x, unheld).Has(b) || And(y, unheld).Has(b);
    }
    if b: nat :| And(x, unheld).Has(b) { assert And(Or(x, y), unheld).Has(b); }
    if b: nat :| And(y, unheld).Has(b) { assert And(Or(x, y), unheld).Has(b); }
  }

  /** The three override refusals in order, and what passes: no locked bit moves in allow or in deny. */
  lemma OverrideRefusalIff(held: Bits, before: Option<OverrideBits>, after: Option<OverrideBits>)
    ensures var o, n := BitsOf(before), BitsOf(after);
            OverrideChangeRefusal(held, before, after)
            == if TurnsOn(held, o.allow, n.allow) then Some(CannotGrant)
               else if TurnsOn(held, o.deny, n.deny) then Some(CannotDeny)
               else if TurnsOn(held, n.allow, o.allow) || TurnsOn(held, n.deny, o.deny) then Some(CannotChange)
               else None
    ensures OverrideChangeRefusal(held, before, after).None?
       <==> forall b: nat :: Locked(held, b) ==>
              (BitsOf(before).allow.Has(b) <==> BitsOf(after).allow.Has(b))
              && (BitsOf(before).deny.Has(b) <==> BitsOf(after).deny.Has(b))
  {
    hide And, Minus, Or, HoldsAll, UnheldBits;
    var o, n := BitsOf(before), BitsOf(after);
    OnIffNonZero(held, o.allow, n.allow);
    OnIffNonZero(held, o.deny, n.deny);
    OnIffNonZero(held, n.allow, o.allow);
    OnIffNonZero(held, n.deny, o.deny);
    OrNonZero(Minus(o.allow, n.allow), Minus(o.deny, n.deny), UnheldBits(held));
  }

  /** Two accepted edits by one actor are one accepted edit. */
  lemma EditsCompose(held: Bits, a: Bits, b: Bits, c: Bits)
    requires RoleBitsChangeRefusal(held, a, b).None? && RoleBitsChangeRefusal(held, b, c).None?
    ensures RoleBitsChangeRefusal(held, a, c).None? && RoleBitsChangeRefusal(held, b, a).None?
  {
    hide RoleBitsChangeRefusal, HoldsAll;
    RoleRefusalIff(held, a, b);
    RoleRefusalIff(held, b, c);
    RoleRefusalIff(held, a, c);
    RoleRefusalIff(held, b, a);
  }

  lemma OverridesCompose(held: Bits, a: Option<OverrideBits>, b: Option<OverrideBits>, c: Option<OverrideBits>)
    requires OverrideChangeRefusal(held, a, b).None? && OverrideChangeRefusal(held, b, c).None?
    ensures OverrideChangeRefusal(held, a, c).None? && OverrideChangeRefusal(held, b, a).None?
  {
    hide OverrideChangeRefusal, HoldsAll;
    OverrideRefusalIff(held, a, b);
    OverrideRefusalIff(held, b, c);
    OverrideRefusalIff(held, a, c);
    OverrideRefusalIff(held, b, a);
  }

  // ---- Runs of edits ----

  /** A space's role permissions and overrides; an override that is absent has no bits. */
  datatype SpaceBits = SpaceBits(roles: map<string, Bits>, overrides: map<string, OverrideBits>)

  datatype Edit =
    | RoleEdit(held: Bits, role: string, permissions: Bits)
    | OverrideEdit(held: Bits, target: string, after: Option<OverrideBits>)

  function RoleBits(s: SpaceBits, role: string): Bits {
    if role in s.roles then s.roles[role] else ZERO
  }

  function Override(s: SpaceBits, target: string): Option<OverrideBits> {
    if target in s.overrides then Some(s.overrides[target]) else None
  }

  /** A refused edit leaves everything as it was. */
  function ApplyEdit(s: SpaceBits, e: Edit): SpaceBits {
    match e
    case RoleEdit(held, role, permissions) =>
      if RoleBitsChangeRefusal(held, RoleBits(s, role), permissions).Some? then s
      else s.(roles := s.roles[role := permissions])
    case OverrideEdit(held, target, after) =>
      if OverrideChangeRefusal(held, Override(s, target), after).Some? then s
      else s.(overrides := if after.Some? then s.overrides[target := after.value] else s.overrides - {target})
  }

  function Run(s: SpaceBits, edits: seq<Edit>): SpaceBits
    decreases |edits|
  {
    if edits == [] then s else Run(ApplyEdit(s, edits[0]), edits[1..])
  }

  ghost predicate SameBit(s: SpaceBits, t: SpaceBits, b: nat) {
    && (forall role :: RoleBits(s, role).Has(b) <==> RoleBits(t, role).Has(b))
    && (forall target ::
          (BitsOf(Override(s, target)).allow.Has(b) <==> BitsOf(Override(t, target)).allow.Has(b))
          && (BitsOf(Override(s, target)).deny.Has(b) <==> BitsOf(Override(t, target)).deny.Has(b)))
  }

  lemma EditKeepsLocked(s: SpaceBits, e: Edit, b: nat)
    requires Locked(e.held, b)
    ensures SameBit(s, ApplyEdit(s, e), b)
  {
    hide RoleBitsChangeRefusal, OverrideChangeRefusal, HoldsAll;
    match e
    case RoleEdit(held, role, permissions) => RoleRefusalIff(held, RoleBits(s, role), permissions);
    case OverrideEdit(held, target, after) => OverrideRefusalIff(held, Override(s, target), after);
  }

  /** Over any run, a bit none of the actors holds stays as it was in every role and in every override. */
  lemma {:induction false} RunKeepsLocked(s: SpaceBits, edits: seq<Edit>, b: nat)
    requires forall e | e in edits :: Locked(e.held, b)
    ensures SameBit(s, Run(s, edits), b)
    decreases |edits|
  {
    hide ApplyEdit, Locked;
    if edits != [] {
      assert edits[0] in edits && forall e | e in edits[1..] :: e in edits;
      EditKeepsLocked(s, edits[0], b);
      RunKeepsLocked(ApplyEdit(s, edits[0]), edits[1..], b);
    }
  }
}
