/** The part of Ruby's object model that the two services rely on: the nested
    hashes that the FogBugz client returns, Ruby's truthiness, `v[key]` with a
    String key, ActiveSupport's `try(:[], key)`, and the exceptions that
    indexing raises, carried in a Result instead of being thrown. */
module RubyValues {

  datatype Option<+T> = None | Some(value: T)

  /** An object as the FogBugz client hands it over: nil, a String, a Hash with
      String keys, or an Array. */
  datatype Value = Nil | Text(s: string) | Hash(entries: map<string, Value>) | List(items: seq<Value>)

  /** The exceptions that indexing can raise. */
  datatype Fault =
    | NoMethodError   // a method called on nil (or `collect` on something that is no collection)
    | TypeError       // an Array indexed with a String

  datatype Result<+T> = Ok(value: T) | Err(error: Fault) {
    predicate IsFailure() {
      Err?
    }

    function PropagateFailure<U>(): Result<U> {
      match this
      case Err(e) => Err(e)
      case Ok(_) => Err(NoMethodError)  // never used: `:-` propagates failures only
    }

    function Extract(): T
      requires Ok?
    {
      value
    }
  }

  /** Ruby's truthiness: the values carried here have no `false`, so only nil is falsy. */
  predicate Truthy(v: Value) {
    !v.Nil?
  }

  /** `k` occurs in `s` as a contiguous substring. */
  predicate Occurs(k: string, s: string)
    decreases |s|
  {
    |k| <= |s| && (s[..|k|] == k || (|s| > 0 && Occurs(k, s[1..])))
  }

  /** `v[k]` with a String key: a Hash looks the key up and gives nil when it is
      absent; a String gives `k` when `k` occurs in it and nil otherwise; nil has
      no `[]`; an Array refuses a String index. */
  function Index(v: Value, k: string): (r: Result<Value>)
    ensures r.Err? <==> v.Nil? || v.List?
    ensures v.Hash? ==> r == Ok(if k in v.entries then v.entries[k] else Nil)
  {
    match v
    case Nil => Err(NoMethodError)
    case List(_) => Err(TypeError)
    case Hash(m) => Ok(if k in m then m[k] else Nil)
    case Text(s) => Ok(if Occurs(k, s) then Text(k) else Nil)
  }

  /** ActiveSupport's `v.try(:[], k)`: nil on nil, `v[k]` otherwise. */
  function Try(v: Value, k: string): (r: Result<Value>)
    ensures v.Nil? ==> r == Ok(Nil)
    ensures v.Hash? ==> r == Ok(if k in v.entries then v.entries[k] else Nil)
    ensures r.Err? <==> v.List?
  {
    if v.Nil? then Ok(Nil) else Index(v, k)
  }
}
