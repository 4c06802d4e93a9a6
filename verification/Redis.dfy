/** The option type used for keys that may be missing. */
module Options {
  datatype Option<+T> = None | Some(value: T)
}

/** The Redis commands the server relies on, over one family of keys at a time.

    A cell holds a value and the instant (in milliseconds) at which it expires. A cell whose instant has
    passed reads as missing, whether or not it is still in the map. */
module RedisTables {
  import opened Options

  datatype Cell<+V> = Cell(value: V, expires: Option<int>)

  type Table<K, V> = map<K, Cell<V>>

  predicate Live<V>(cell: Cell<V>, now: int) {
    cell.expires.None? || now < cell.expires.value
  }

  /** GET */
  function Get<K, V>(t: Table<K, V>, k: K, now: int): Option<V> {
    if k in t && Live(t[k], now) then Some(t[k].value) else None
  }

  /** SET with EX or PX: the expiry is replaced. */
  function Put<K, V>(t: Table<K, V>, k: K, v: V, now: int, ttl: int): Table<K, V> {
    t[k := Cell(v, Some(now + ttl))]
  }

  /** SET with EX or PX, and NX: writes only when no live key exists. */
  function PutNx<K, V>(t: Table<K, V>, k: K, v: V, now: int, ttl: int): Table<K, V> {
    if Get(t, k, now).None? then Put(t, k, v, now, ttl) else t
  }

  /** DEL */
  function Del<K, V>(t: Table<K, V>, k: K): Table<K, V> {
    t - {k}
  }

  /** EXPIRE: does nothing on a missing key. */
  function Expire<K, V>(t: Table<K, V>, k: K, now: int, ttl: int): Table<K, V> {
    if k in t && Live(t[k], now) then Put(t, k, t[k].value, now, ttl) else t
  }

  /** EXPIRE on each of a set of keys, in one pipeline. */
  function ExpireAll<K, V>(t: Table<K, V>, ks: set<K>, now: int, ttl: int): Table<K, V> {
    map k | k in t :: if k in ks && Live(t[k], now) then Cell(t[k].value, Some(now + ttl)) else t[k]
  }

  /** SMEMBERS, as a set: a missing key is the empty set. */
  function Elements<K, X>(t: Table<K, set<X>>, k: K, now: int): set<X> {
    if k in t && Live(t[k], now) then t[k].value else {}
  }

  /** SADD: keeps the expiry of a live key; a new key gets none. */
  function SAdd<K, X>(t: Table<K, set<X>>, k: K, x: X, now: int): Table<K, set<X>> {
    t[k := Cell(Elements(t, k, now) + {x}, if k in t && Live(t[k], now) then t[k].expires else None)]
  }

  /** SREM: keeps the expiry, and removes a key whose set becomes empty. */
  function SRem<K, X>(t: Table<K, set<X>>, k: K, x: X, now: int): Table<K, set<X>> {
    var left := Elements(t, k, now) - {x};
    if left == {} then Del(t, k) else t[k := Cell(left, t[k].expires)]
  }

  /** A listing of a set in the arbitrary order in which Redis returns it. */
  ghost predicate Lists<X(!new)>(xs: seq<X>, s: set<X>) {
    && (forall x :: x in xs <==> x in s)
    && Distinct(xs)
  }

  function SetOf<X>(xs: seq<X>): set<X> {
    set x | x in xs
  }

  ghost predicate Distinct<X>(xs: seq<X>) {
    forall i, j :: 0 <= i < j < |xs| ==> xs[i] != xs[j]
  }
}
