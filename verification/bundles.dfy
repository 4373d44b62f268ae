/** `solid.Bundle`: a string-keyed map of dynamically typed values, used for
    navigation arguments and event contexts. */
module Bundles {
  import opened Base

  /** The values a bundle can hold, as a tagged variant instead of `Any?`. */
  datatype Value = Null | IntValue(i: int) | BoolValue(b: bool) | StringValue(s: string)

  /** The type a caller asks `get` for: a value kind, possibly nullable. */
  datatype Kind = AnyKind | IntKind | BoolKind | StringKind
  datatype Type = Type(kind: Kind, nullable: bool)

  datatype CastError = CastFailed

  datatype Result<+R> = Ok(value: R) | Err(error: CastError)

  datatype Bundle = Bundle(data: map<string, Value>)

  /** One `set` performed by a `create` setup block. */
  datatype Write = Write(key: string, value: Value)

  function Empty(): (b: Bundle)
    ensures forall k :: Lookup(b, k) == Null
  {
    Bundle(map[])
  }

  /** The map read `data[key]`: a key that was never set reads as null. */
  function Lookup(b: Bundle, key: string): Value {
    if key in b.data then b.data[key] else Null
  }

  /** Whether the checked cast `as T` accepts `v`. */
  predicate Conforms(v: Value, t: Type) {
    match v
    case Null => t.nullable
    case IntValue(_) => t.kind == AnyKind || t.kind == IntKind
    case BoolValue(_) => t.kind == BoolKind || t.kind == AnyKind
    case StringValue(_) => t.kind == StringKind || t.kind == AnyKind
  }

  /** `get<T>(key)`: the stored value cast to the requested type; the cast
      fails when the value is of another kind, or null for a non-null type. */
  function Get(b: Bundle, key: string, t: Type): (r: Result<Value>)
    ensures r.Ok? <==> Conforms(Lookup(b, key), t)
    ensures r.Ok? ==> r.value == Lookup(b, key)
    ensures key !in b.data ==> (r.Ok? <==> t.nullable)
  {
    var v := Lookup(b, key);
    if Conforms(v, t) then Ok(v) else Err(CastFailed)
  }

  /** `set(key, value)`: stores the value (null included) under the key. */
  function Set(b: Bundle, key: string, value: Value): (r: Bundle)
    ensures Lookup(r, key) == value
    ensures key in r.data
    ensures forall k :: k != key ==> Lookup(r, k) == Lookup(b, k)
    ensures r.data.Keys == b.data.Keys + {key}
  {
    Bundle(b.data[key := value])
  }

  /** `Bundle.create(setup)`: a fresh bundle with the setup block's writes
      applied in order. */
  function Create(setup: seq<Write>): (r: Bundle)
    ensures forall k :: Lookup(r, k) == LastWrite(setup, k, Null)
  {
    forall k ensures Lookup(Apply(Empty(), setup), k) == LastWrite(setup, k, Null) {
      ApplyLastWrite(Empty(), setup, k);
    }
    Apply(Empty(), setup)
  }

  function Apply(b: Bundle, writes: seq<Write>): Bundle
    decreases |writes|
  {
    if writes == [] then b
    else Apply(Set(b, writes[0].key, writes[0].value), writes[1..])
  }

  /** The value a sequence of writes leaves at `key`: the last one to it, or
      `otherwise` when none writes to it. */
  function LastWrite(writes: seq<Write>, key: string, otherwise: Value): Value
    decreases |writes|
  {
    if writes == [] then otherwise
    else if writes[|writes| - 1].key == key then writes[|writes| - 1].value
    else LastWrite(writes[..|writes| - 1], key, otherwise)
  }

  lemma {:induction false} ApplyLastWrite(b: Bundle, writes: seq<Write>, key: string)
    ensures Lookup(Apply(b, writes), key) == LastWrite(writes, key, Lookup(b, key))
    decreases |writes|
  {
    if writes != [] {
      var b' := Set(b, writes[0].key, writes[0].value);
      ApplyLastWrite(b', writes[1..], key);
      LastWriteCons(writes[0], writes[1..], key, Lookup(b, key));
      assert [writes[0]] + writes[1..] == writes;
    }
  }

  lemma {:induction false} LastWriteCons(w: Write, rest: seq<Write>, key: string, otherwise: Value)
    ensures LastWrite([w] + rest, key, otherwise)
         == LastWrite(rest, key, if w.key == key then w.value else otherwise)
    decreases |rest|
  {
    if rest != [] {
      assert ([w] + rest)[..|[w] + rest| - 1] == [w] + rest[..|rest| - 1];
      LastWriteCons(w, rest[..|rest| - 1], key, otherwise);
    }
  }

  /** `create(setup)` is the fresh bundle after the setup's writes: every key
      holds the last value written to it, and a key never written reads null. */
  lemma CreateHoldsLastWrites(setup: seq<Write>, key: string)
    ensures Lookup(Create(setup), key) == LastWrite(setup, key, Null)
    ensures (forall i | 0 <= i < |setup| :: setup[i].key != key) ==> Lookup(Create(setup), key) == Null
  {
    ApplyLastWrite(Empty(), setup, key);
    if forall i | 0 <= i < |setup| :: setup[i].key != key {
      LastWriteMissing(setup, key, Null);
    }
  }

  lemma {:induction false} LastWriteMissing(writes: seq<Write>, key: string, otherwise: Value)
    requires forall i | 0 <= i < |writes| :: writes[i].key != key
    ensures LastWrite(writes, key, otherwise) == otherwise
    decreases |writes|
  {
    if writes != [] {
      LastWriteMissing(writes[..|writes| - 1], key, otherwise);
    }
  }

  /** `get` after `set` returns the stored value whenever the requested type
      admits it. */
  lemma GetAfterSet(b: Bundle, key: string, value: Value, t: Type)
    requires Conforms(value, t)
    ensures Get(Set(b, key, value), key, t) == Ok(value)
  {
  }
}
