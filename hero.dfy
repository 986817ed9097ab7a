/** The rotating role line of the landing hero (src/components/Hero.tsx):
    every timer tick advances the shown role to the next of four, wrapping
    around after the last. */
module Hero {

  const Roles: seq<string> := ["UI/UX Designer", "Front-End Developer", "Mobile App Builder", "Creative Problem Solver"]

  /** The role index after `ticks` ticks, one `(prev + 1) % roles.length`
      step per tick from 0. */
  function RoleAfter(ticks: nat): (index: nat)
    ensures index < |Roles|
  {
    if ticks == 0 then 0 else (RoleAfter(ticks - 1) + 1) % |Roles|
  }

  /** After `ticks` ticks the banner shows role number `ticks mod 4`. */
  lemma {:induction false} RoleAfterIsRemainder(ticks: nat)
    ensures RoleAfter(ticks) == ticks % |Roles|
  {
    if ticks > 0 {
      RoleAfterIsRemainder(ticks - 1);
    }
  }

  /** Every four ticks the banner is back at the same role. */
  lemma RoleCycle(ticks: nat)
    ensures RoleAfter(ticks + |Roles|) == RoleAfter(ticks)
  {
    RoleAfterIsRemainder(ticks);
    RoleAfterIsRemainder(ticks + |Roles|);
  }

  /** The first cycle shows the roles in list order, each once. */
  lemma EveryRoleShown(k: nat)
    requires k < |Roles|
    ensures RoleAfter(k) == k
  {
    RoleAfterIsRemainder(k);
  }

  /** The banner's state: the shown role index and, as ghost state, the
      number of ticks so far. */
  class RoleBanner {
    var currentRole: nat
    ghost var ticks: nat

    ghost predicate Valid()
      reads this
    {
      currentRole == RoleAfter(ticks)
    }

    /** The first role is shown on mount. */
    constructor ()
      ensures Valid() && ticks == 0 && currentRole == 0
    {
      currentRole := 0;
      ticks := 0;
    }

    /** One interval callback. */
    method Tick()
      requires Valid()
      modifies this
      ensures Valid() && ticks == old(ticks) + 1
      ensures currentRole == (old(currentRole) + 1) % |Roles|
      ensures currentRole < |Roles|
    {
      currentRole := (currentRole + 1) % |Roles|;
      ticks := ticks + 1;
    }

    /** The role text on screen. */
    function ShownRole(): (role: string)
      requires Valid()
      reads this
      ensures role in Roles
    {
      Roles[currentRole]
    }
  }
}
