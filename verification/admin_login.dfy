/**
 * The admin login page's `handleLogin`: it asks the `verify-admin-secret`
 * function for a verdict and, on a valid one, writes the session marker and
 * goes to the dashboard. The `await` on the function call splits the handler
 * in two steps, `StartLogin` and `FinishLogin`, between which the page shows
 * its busy state. Toasts are not modelled; the call's outcome is a parameter.
 */
module AdminLogin {
  import opened Wrappers
  import opened Session
  import VerifyAdminSecret

  /**
   * What `supabase.functions.invoke` gave back: a thrown or returned error
   * (its message), or the response data, reduced to the truthiness of
   * `data?.valid`.
   */
  datatype InvokeOutcome = InvokeFailed(message: string) | InvokeReturned(valid: bool)

  /** The only outcome that grants access: no error and a truthy `data.valid`. */
  predicate GrantsAccess(outcome: InvokeOutcome) {
    outcome.InvokeReturned? && outcome.valid
  }

  /**
   * How the client library reports a response of the verifier: a status
   * outside 2xx becomes an error, anything else is handed over as data.
   */
  function OutcomeOf(r: VerifyAdminSecret.Response): (outcome: InvokeOutcome)
    ensures outcome.InvokeFailed? <==> !(200 <= r.status < 300)
  {
    if 200 <= r.status < 300 then
      InvokeReturned(r.payload.Verdict? && r.payload.valid)
    else
      InvokeFailed("Edge Function returned a non-2xx status code")
  }

  /**
   * End to end: a login with candidate `candidate` against the handler
   * writes the marker exactly when the candidate equals the configured,
   * non-empty secret.
   */
  lemma GrantOnlyOnMatch(candidate: string, adminSecret: Option<string>)
    ensures var req := VerifyAdminSecret.Request("POST", VerifyAdminSecret.Parsed(Some(candidate)));
      (GrantsAccess(OutcomeOf(VerifyAdminSecret.Handle(req, adminSecret)))
       <==> VerifyAdminSecret.Matches(Some(candidate), adminSecret))
  {
  }

  class LoginPage {
    const storage: LocalStorage
    var secret: string
    var loading: bool

    constructor (storage: LocalStorage)
      ensures this.storage == storage && secret == "" && !loading
    {
      this.storage := storage;
      secret := "";
      loading := false;
    }

    /** The secret input's `onChange`. */
    method SetSecret(value: string)
      modifies this
      ensures secret == value && loading == old(loading)
    {
      secret := value;
    }

    /** `handleLogin` up to the `await`: the page is busy while the verdict is pending. */
    method StartLogin()
      modifies this
      ensures loading && secret == old(secret)
    {
      loading := true;
    }

    /**
     * `handleLogin` after the `await`: the marker is written and the page
     * goes to the dashboard only on a valid verdict whose `setItem` does not
     * throw. On an error, an invalid verdict or a throwing `setItem` (a full
     * or disabled store; `setItemError` stands for the exception) nothing is
     * stored and there is no navigation. Either way the page is no longer
     * busy, and the marker is never removed here.
     */
    method FinishLogin(outcome: InvokeOutcome, setItemError: Option<string>) returns (nav: Option<string>)
      modifies this, storage
      ensures !loading && secret == old(secret)
      ensures var granted := GrantsAccess(outcome) && setItemError.None?;
        storage.items == (if granted then Grant(old(storage.items)) else old(storage.items)) &&
        nav == (if granted then Some(DashboardPath) else None)
      ensures old(storage.items).Keys <= storage.items.Keys
    {
      nav := None;
      match outcome {
        case InvokeFailed(_) =>
        case InvokeReturned(valid) =>
          if valid && setItemError.None? {
            storage.SetItem(AdminKey, GrantedValue);
            nav := Some(DashboardPath);
          }
      }
      loading := false;
    }
  }
}
