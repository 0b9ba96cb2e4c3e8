/**
 * src/contexts/NetworkContext.tsx: the "prefer the internal network"
 * switch. The provider keeps the preference and a mounted flag; the
 * preference is read from and written to one browser storage key, whose
 * value is passed in and handed back rather than read from a global.
 */
module NetworkContext {
  import opened Wrappers
  import opened Js

  /** The value stored under the "useInternalNetwork" key, if any. */
  type Stored = Option<string>

  datatype Provider = Provider(preference: bool, mounted: bool)

  /** The state before the mount effect has run. */
  const Unmounted := Provider(false, false)

  /** The `useInternalNetwork` the provider exposes: false until mounted, whatever the state holds. */
  function Exposed(p: Provider): (v: bool)
    ensures !p.mounted ==> !v
    ensures p.mounted ==> v == p.preference
  {
    p.mounted && p.preference
  }

  /** The mount effect: a saved value sets the preference to whether it reads "true"; no saved value keeps it. */
  function Mount(p: Provider, saved: Stored): (q: Provider)
    ensures q.mounted
    ensures saved.Some? ==> (q.preference <==> saved.value == "true")
    ensures saved.None? ==> q.preference == p.preference
  {
    Provider(if saved.Some? then saved.value == "true" else p.preference, true)
  }

  /**
   * `toggleNetworkMode`: negate the preference and, in a browser, store its
   * string form; outside a browser the stored value is left alone.
   */
  function Toggle(p: Provider, stored: Stored, inBrowser: bool): (r: (Provider, Stored))
    ensures r.0.preference == !p.preference && r.0.mounted == p.mounted
    ensures inBrowser ==> r.1 == Some(BoolToString(r.0.preference))
    ensures !inBrowser ==> r.1 == stored
  {
    var newValue := !p.preference;
    (p.(preference := newValue), if inBrowser then Some(BoolToString(newValue)) else stored)
  }

  /** After a toggle in a browser, a fresh page that mounts from storage comes back with the same preference. */
  lemma ToggleThenRemount(p: Provider, stored: Stored)
    ensures var (q, s) := Toggle(p, stored, true);
      Mount(Unmounted, s).preference == q.preference && Exposed(Mount(Unmounted, s)) == q.preference
  {
  }

  /** Storage agrees with the preference. */
  predicate InSync(p: Provider, stored: Stored) {
    stored == Some(BoolToString(p.preference))
  }

  /** Two toggles in a browser restore the preference and, when they agreed before, the stored string too. */
  lemma ToggleTwice(p: Provider, stored: Stored)
    ensures var (q, s) := Toggle(p, stored, true);
      var (q2, s2) := Toggle(q, s, true);
      q2 == p && InSync(q2, s2) && (InSync(p, stored) ==> s2 == stored)
  {
  }

  /** `n` toggles in a row. */
  function Toggles(p: Provider, stored: Stored, inBrowser: bool, n: nat): (Provider, Stored)
    decreases n
  {
    if n == 0 then (p, stored)
    else
      var (q, s) := Toggles(p, stored, inBrowser, n - 1);
      Toggle(q, s, inBrowser)
  }

  /**
   * After `n` toggles the preference is flipped exactly when `n` is odd, and
   * in a browser any toggle at all leaves storage in agreement.
   */
  lemma {:induction false} TogglesParity(p: Provider, stored: Stored, inBrowser: bool, n: nat)
    ensures var (q, s) := Toggles(p, stored, inBrowser, n);
      && q.mounted == p.mounted
      && (q.preference <==> (p.preference != (n % 2 == 1)))
      && (inBrowser && n > 0 ==> InSync(q, s))
      && (!inBrowser ==> s == stored)
    decreases n
  {
    if n > 0 {
      TogglesParity(p, stored, inBrowser, n - 1);
    }
  }

  /** Only the exact text "true" turns the preference on. */
  lemma OnlyTrueTurnsOn(saved: string)
    requires saved != "true"
    ensures !Mount(Unmounted, Some(saved)).preference
  {
  }

  /** What `useContext` sees: the provider's value, or nothing outside any provider. */
  datatype ContextValue = ContextValue(useInternalNetwork: bool)

  /** `useNetwork`: the context's value, and an error outside a provider. */
  function UseNetwork(ctx: Option<Provider>): (r: Result<ContextValue, string>)
    ensures ctx.None? <==> r.Failure?
    ensures ctx.Some? ==> r.value.useInternalNetwork == Exposed(ctx.value)
  {
    match ctx
    case None => Failure("useNetwork must be used inside NetworkProvider")
    case Some(p) => Success(ContextValue(Exposed(p)))
  }
}
