/**
 * The browser's `localStorage` as the admin screens use it: a key to string
 * map, and the `admin_verified` marker that stands for "this browser once
 * passed the secret check".
 */
module Session {
  import opened Wrappers

  const AdminKey := "admin_verified"
  const GrantedValue := "true"
  const LoginPath := "/admin/login"
  const DashboardPath := "/admin/dashboard"

  /** The gate's test `!localStorage.getItem('admin_verified')` fails: the key is present and not empty. */
  predicate IsAuthorized(items: map<string, string>) {
    AdminKey in items && items[AdminKey] != ""
  }

  /** The store after `setItem('admin_verified', 'true')`. */
  function Grant(items: map<string, string>): (r: map<string, string>)
    ensures IsAuthorized(r)
    ensures r.Keys == items.Keys + {AdminKey}
    ensures forall k :: k in items && k != AdminKey ==> r[k] == items[k]
  {
    items[AdminKey := GrantedValue]
  }

  /** The store after `removeItem('admin_verified')`. */
  function Revoke(items: map<string, string>): (r: map<string, string>)
    ensures !IsAuthorized(r)
    ensures r.Keys == items.Keys - {AdminKey}
    ensures forall k :: k in r ==> r[k] == items[k]
  {
    items - {AdminKey}
  }

  /** Granting then revoking leaves no marker; revoking then granting leaves a valid one. */
  lemma GrantRevoke(items: map<string, string>)
    ensures !IsAuthorized(Revoke(Grant(items)))
    ensures IsAuthorized(Grant(Revoke(items)))
    ensures Revoke(Grant(items)) == Revoke(items)
  {
  }

  /** One browser's `localStorage`. */
  class LocalStorage {
    var items: map<string, string>

    constructor (initial: map<string, string>)
      ensures items == initial
    {
      items := initial;
    }

    method GetItem(key: string) returns (v: Option<string>)
      ensures v == if key in items then Some(items[key]) else None
    {
      v := if key in items then Some(items[key]) else None;
    }

    method SetItem(key: string, value: string)
      modifies this
      ensures items == old(items)[key := value]
    {
      items := items[key := value];
    }

    method RemoveItem(key: string)
      modifies this
      ensures items == old(items) - {key}
    {
      items := items - {key};
    }
  }
}
