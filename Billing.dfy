/** The billing page (app/dashboard/billing/page.js): which configured plan is
    the user's, the status header, the per-plan "current" marker and price, the
    monthly/yearly toggle and the checkout click. The plan table is the
    `lemonsqueezy.plans` constant of config.js. */
module Billing {
  import opened Js
  import opened Records

  /** A JavaScript value compared with `===` against a variant id: `undefined`
      (a missing property or a missing profile), `null` (an empty column) or a
      string. */
  datatype PriceRef = PUndefined | PNull | PStr(s: string)

  /** A configured plan. The configuration gives `variantId` only, so the
      monthly and yearly ids read `undefined`. Prices are whole dollars. */
  datatype Plan = Plan(
    name: string,
    variantId: PriceRef,
    variantIdMonthly: PriceRef,
    variantIdYearly: PriceRef,
    price: nat)

  datatype Cycle = Monthly | Yearly

  /** `config.lemonsqueezy.plans`; `dev` is `NODE_ENV === "development"`. */
  function Plans(dev: bool): (ps: seq<Plan>)
    ensures |ps| == 2
    ensures forall i :: 0 <= i < |ps| ==>
              ps[i].variantId.PStr? && ps[i].variantIdMonthly == PUndefined && ps[i].variantIdYearly == PUndefined
    ensures ps[0].variantId != ps[1].variantId
  {
    [ Plan("Starter", PStr(if dev then "VARIANT_ID_DEV" else "VARIANT_ID_PROD"), PUndefined, PUndefined, 79),
      Plan("Advanced", PStr(if dev then "VARIANT_ID_DEV_ADV" else "VARIANT_ID_PROD_ADV"),
           PUndefined, PUndefined, 99) ]
  }

  /** `profile?.price_id` */
  function PriceIdOf(profile: Option<ProfileRow>): (r: PriceRef)
    ensures r == PUndefined <==> profile.None?
    ensures r == PNull <==> profile.Some? && profile.value.priceId.None?
  {
    match profile
    case None => PUndefined
    case Some(p) => if p.priceId.Some? then PStr(p.priceId.value) else PNull
  }

  /** `profile?.has_access` is truthy. */
  predicate HasAccess(profile: Option<ProfileRow>) {
    profile.Some? && profile.value.hasAccess
  }

  /** The `find` predicate: any of the three ids strictly equals `ref`. */
  predicate Matches(plan: Plan, ref: PriceRef) {
    plan.variantId == ref || plan.variantIdMonthly == ref || plan.variantIdYearly == ref
  }

  /** `plans.find(...)`: the index of the first matching plan. */
  function FindPlan(plans: seq<Plan>, ref: PriceRef): (r: Option<nat>)
    ensures r.Some? ==> r.value < |plans| && Matches(plans[r.value], ref)
    ensures r.Some? ==> forall j :: 0 <= j < r.value ==> !Matches(plans[j], ref)
    ensures r.None? ==> forall j :: 0 <= j < |plans| ==> !Matches(plans[j], ref)
    decreases |plans|
  {
    if plans == [] then None
    else if Matches(plans[0], ref) then Some(0)
    else
      var rest := FindPlan(plans[1..], ref);
      assert forall j :: 1 <= j < |plans| ==> plans[j] == plans[1..][j - 1];
      match rest
      case None => None
      case Some(k) => Some(k + 1)
  }

  /** A missing profile gives an undefined `price_id`, which equals the
      undefined monthly id of the first plan: the lookup finds "Starter". */
  lemma UndefinedPriceMatchesFirstPlan(dev: bool)
    ensures FindPlan(Plans(dev), PriceIdOf(None)) == Some(0)
    ensures Plans(dev)[0].name == "Starter"
  {
  }

  /** A null `price_id` matches no plan. */
  lemma NullPriceMatchesNoPlan(dev: bool, p: ProfileRow)
    requires p.priceId.None?
    ensures FindPlan(Plans(dev), PriceIdOf(Some(p))) == None
  {
  }

  /** A stored `price_id` finds the plan whose `variantId` it is, and no plan
      when it is none of them. */
  lemma StoredPriceFindsItsPlan(dev: bool, p: ProfileRow)
    requires p.priceId.Some?
    ensures var r := FindPlan(Plans(dev), PriceIdOf(Some(p)));
            && (r.Some? <==> exists i :: 0 <= i < 2 && Plans(dev)[i].variantId == PStr(p.priceId.value))
            && (r.Some? ==> Plans(dev)[r.value].variantId == PStr(p.priceId.value))
  {
    var ps := Plans(dev);
    var r := FindPlan(ps, PriceIdOf(Some(p)));
    if r.None? {
      assert !Matches(ps[0], PStr(p.priceId.value)) && !Matches(ps[1], PStr(p.priceId.value));
    }
  }

  /** `plan.variantId === profile?.price_id` */
  predicate IsCurrent(plan: Plan, profile: Option<ProfileRow>) {
    plan.variantId == PriceIdOf(profile)
  }

  /** The plan found by the lookup is marked current unless the profile is
      missing; a missing profile marks no plan current. */
  lemma FoundPlanIsCurrent(dev: bool, profile: Option<ProfileRow>)
    ensures profile.None? ==> forall i :: 0 <= i < 2 ==> !IsCurrent(Plans(dev)[i], profile)
    ensures profile.Some? && FindPlan(Plans(dev), PriceIdOf(profile)).Some? ==>
              IsCurrent(Plans(dev)[FindPlan(Plans(dev), PriceIdOf(profile)).value], profile)
  {
  }

  /** At most one plan is current: the configured variant ids are distinct. */
  lemma AtMostOneCurrent(dev: bool, profile: Option<ProfileRow>, i: nat, j: nat)
    requires i < 2 && j < 2
    requires IsCurrent(Plans(dev)[i], profile) && IsCurrent(Plans(dev)[j], profile)
    ensures i == j
  {
    var ps := Plans(dev);
    var id0, id1 := ps[0].variantId.s, ps[1].variantId.s;
    assert |id0| < |id1|;
    assert ps[0].variantId != ps[1].variantId;
  }

  /** The status header's title. */
  function HeaderTitle(dev: bool, profile: Option<ProfileRow>): (t: string)
    ensures t == "Free Tier" <==> !HasAccess(profile)
    ensures HasAccess(profile) && FindPlan(Plans(dev), PriceIdOf(profile)).None? ==> t == "Active Plan"
    ensures HasAccess(profile) && FindPlan(Plans(dev), PriceIdOf(profile)).Some? ==>
              t == Plans(dev)[FindPlan(Plans(dev), PriceIdOf(profile)).value].name
  {
    if !HasAccess(profile) then "Free Tier"
    else
      match FindPlan(Plans(dev), PriceIdOf(profile))
      case None => "Active Plan"
      case Some(i) => OrElse(Some(Plans(dev)[i].name), "Active Plan")
  }

  /** The status header's second line. */
  function HeaderDetail(profile: Option<ProfileRow>): (t: string)
    ensures t == "Full Access Enabled" <==> HasAccess(profile)
    ensures t == "Limited Access" <==> !HasAccess(profile)
  {
    if HasAccess(profile) then "Full Access Enabled" else "Limited Access"
  }

  /** A paying user whose `price_id` is a plan's variant id sees that plan's
      name in the header. */
  lemma HeaderForPayingUser(dev: bool, p: ProfileRow, i: nat)
    requires p.hasAccess && i < 2 && p.priceId == Some(Plans(dev)[i].variantId.s)
    ensures HeaderTitle(dev, Some(p)) == Plans(dev)[i].name
  {
    var ps := Plans(dev);
    var r := FindPlan(ps, PriceIdOf(Some(p)));
    if r.Some? && r.value != i {
      AtMostOneCurrent(dev, Some(p), i, r.value);
    }
  }

  /** The button of a plan: disabled and labelled "Current Plan" exactly when
      the plan is current. */
  function ButtonLabel(plan: Plan, profile: Option<ProfileRow>): (t: string)
    ensures t == "Current Plan" <==> IsCurrent(plan, profile)
    ensures t == "Upgrade Access" <==> !IsCurrent(plan, profile)
  {
    if IsCurrent(plan, profile) then "Current Plan" else "Upgrade Access"
  }

  /** The displayed price and unit: `price`/mo, or `Math.floor(price * 10)`/yr. */
  function DisplayPrice(plan: Plan, cycle: Cycle): (r: (nat, string))
    ensures cycle == Monthly ==> r == (plan.price, "mo")
    ensures cycle == Yearly ==> r.1 == "yr" && r.0 == 10 * plan.price
  {
    if cycle == Monthly then (plan.price, "mo") else (plan.price * 10, "yr")
  }

  /** For every configured plan the yearly amount is ten monthly amounts
      (the "-20%" badge is approximate). */
  lemma YearlyIsTenMonths(dev: bool, i: nat)
    requires i < 2
    ensures DisplayPrice(Plans(dev)[i], Yearly).0 == 10 * DisplayPrice(Plans(dev)[i], Monthly).0
    ensures DisplayPrice(Plans(dev)[i], Monthly).0 == (if i == 0 then 79 else 99)
  {
  }

  /** The page's state. `redirect` is `window.location.href` once set. */
  class BillingPage {
    const dev: bool
    var profile: Option<ProfileRow>
    var cycle: Cycle
    var loading: bool
    var redirect: Option<JsValue>

    constructor(dev: bool)
      ensures this.dev == dev && profile.None? && cycle == Monthly && loading && redirect.None?
    {
      this.dev := dev;
      profile := None;
      cycle := Monthly;
      loading := true;
      redirect := None;
    }

    /** `getProfile()`: with a user, the profile row (null when there is none);
        loading ends in every case. */
    method LoadProfile(user: Option<User>, profiles: map<string, ProfileRow>)
      modifies this
      ensures !loading && cycle == old(cycle) && redirect == old(redirect)
      ensures user.None? ==> profile == old(profile)
      ensures user.Some? ==>
                profile == if user.value.id in profiles then Some(profiles[user.value.id]) else None
    {
      if user.Some? {
        profile := if user.value.id in profiles then Some(profiles[user.value.id]) else None;
      }
      loading := false;
    }

    /** A cycle button sets exactly that cycle. */
    method SetCycle(c: Cycle)
      modifies this
      ensures cycle == c && profile == old(profile) && loading == old(loading) && redirect == old(redirect)
    {
      cycle := c;
    }

    /** Clicking plan `i`: a current plan's button is disabled; otherwise the
        plan's `variantId` is posted and the page redirects only when the reply
        has a truthy `url` (a failed request, or a reply without one, changes
        nothing). */
    method ClickPlan(i: nat, reply: Result<JsValue>) returns (posted: Option<PriceRef>)
      requires i < 2
      modifies this`redirect
      ensures IsCurrent(Plans(dev)[i], profile) ==> posted.None? && redirect == old(redirect)
      ensures !IsCurrent(Plans(dev)[i], profile) ==> posted == Some(Plans(dev)[i].variantId)
      ensures redirect != old(redirect) ==>
                !IsCurrent(Plans(dev)[i], profile) && reply.Ok? && Get(reply.value, "url").Some? &&
                redirect == Get(reply.value, "url")
      ensures (!IsCurrent(Plans(dev)[i], profile) && reply.Ok? && Get(reply.value, "url").Some? &&
               Truthy(Get(reply.value, "url").value)) ==> redirect == Get(reply.value, "url")
      ensures redirect == old(redirect) || Truthy(redirect.value)
    {
      var plan := Plans(dev)[i];
      if plan.variantId == PriceIdOf(profile) {
        return None;
      }
      posted := Some(plan.variantId);
      if reply.Err? {
        return;
      }
      var url := Get(reply.value, "url");
      if url.Some? && Truthy(url.value) {
        redirect := url;
      }
    }
  }
}
