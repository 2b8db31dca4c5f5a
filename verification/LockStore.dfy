/** The one Redis key behind a lock: SETNX and the two Lua scripts as atomic steps of the server. */
module LockStore {
  import opened Std

  datatype Entry = Entry(token: string, expiry: int)

  /** Time is the server's clock in milliseconds; an entry whose expiry has passed reads as absent. */
  datatype Store = Store(now: int, entry: Option<Entry>) {
    predicate Live() {
      entry.Some? && now < entry.value.expiry
    }

    predicate Holds(token: string) {
      Live() && entry.value.token == token
    }

    /** SET key token NX PX ttl */
    function SetNX(token: string, ttl: int): (Store, bool) {
      if Live() then (this, false) else (this.(entry := Some(Entry(token, now + ttl))), true)
    }

    /** luaRefresh: compare, then PEXPIRE */
    function CompareExpire(token: string, ttl: int): (Store, bool) {
      if Holds(token) then (this.(entry := Some(Entry(token, now + ttl))), true) else (this, false)
    }

    /** luaRelease: compare, then DEL */
    function CompareDelete(token: string): (Store, bool) {
      if Holds(token) then (this.(entry := None), true) else (this, false)
    }
  }
}
