/** Dotted field paths into a nested JSON value ("headline.main",
    "multimedia.default.url"). */
module FieldPaths {
  import opened Wrappers
  import opened JsonData
  import opened PyStrings

  /** The separator of path segments.  A named constant keeps the verifier
      from evaluating `Split` on literal paths eagerly. */
  const Dot: char := '.'

  /** `isinstance(value, dict) and key in value`. */
  predicate HasKey(value: Json, key: string)
  {
    value.JObj? && Lookup(value.members, key).Some?
  }

  /** The value reached from `v` by following `keys` one object member at a
      time; None as soon as the value on the way is not an object or lacks
      the next key. */
  function Walk(v: Json, keys: seq<string>): Option<Json>
    decreases |keys|
  {
    if keys == [] then Some(v)
    else if HasKey(v, keys[0]) then Walk(Lookup(v.members, keys[0]).value, keys[1..])
    else None
  }

  /** The value at a dotted path, with Python's None (JSON null) for a path
      that cannot be followed: any path into a value that is not a dict
      gives None, and a path without a dot is a single key lookup. */
  function ExtractValue(v: Json, fieldPath: string): (r: Json)
    ensures !v.JObj? ==> r == JNull
    ensures Dot !in fieldPath ==> r == if HasKey(v, fieldPath) then Lookup(v.members, fieldPath).value else JNull
  {
    var keys := Split(fieldPath, Dot);
    assert Dot !in fieldPath ==> keys == [fieldPath] by {
      if Dot !in fieldPath {
        KeyPath(fieldPath);
      }
    }
    assert keys == [fieldPath] && HasKey(v, fieldPath) ==> Walk(v, keys) == Walk(Lookup(v.members, fieldPath).value, []);
    Walk(v, keys).GetOr(JNull)
  }

  /** Following `a + b` is following `a` and then `b`. */
  lemma {:induction false} WalkAppend(v: Json, a: seq<string>, b: seq<string>)
    ensures Walk(v, a + b) == if Walk(v, a).None? then None else Walk(Walk(v, a).value, b)
    decreases |a|
  {
    if a != [] {
      assert (a + b)[0] == a[0] && (a + b)[1..] == a[1..] + b;
      if HasKey(v, a[0]) {
        WalkAppend(Lookup(v.members, a[0]).value, a[1..], b);
      }
    } else {
      assert a + b == b;
    }
  }

  /** The walk fails exactly when, at some step, the value reached so far is
      not an object holding the next key. */
  lemma {:induction false} WalkFailsIff(v: Json, keys: seq<string>)
    ensures Walk(v, keys).None? <==>
      exists k :: 0 <= k < |keys| && Walk(v, keys[..k]).Some? && !HasKey(Walk(v, keys[..k]).value, keys[k])
    decreases |keys|
  {
    if keys != [] {
      assert keys[..0] == [];
      if HasKey(v, keys[0]) {
        var child := Lookup(v.members, keys[0]).value;
        WalkFailsIff(child, keys[1..]);
        forall k | 1 <= k <= |keys|
          ensures Walk(v, keys[..k]) == Walk(child, keys[1..][..k - 1])
        {
          assert keys[..k][0] == keys[0] && keys[..k][1..] == keys[1..][..k - 1];
        }
        if Walk(v, keys).None? {
          var k :| 0 <= k < |keys| - 1 && Walk(child, keys[1..][..k]).Some? && !HasKey(Walk(child, keys[1..][..k]).value, keys[1..][k]);
          assert Walk(v, keys[..k + 1]) == Walk(child, keys[1..][..k]);
        } else {
          forall k | 0 <= k < |keys| && Walk(v, keys[..k]).Some?
            ensures HasKey(Walk(v, keys[..k]).value, keys[k])
          {
            if k > 0 {
              assert Walk(v, keys[..k]) == Walk(child, keys[1..][..k - 1]);
              assert keys[k] == keys[1..][k - 1];
            }
          }
        }
      }
    }
  }

  /** Extracting `p.q` is extracting `q` from the value at `p`. */
  lemma ExtractComposes(v: Json, p: string, q: string)
    ensures ExtractValue(v, p + [Dot] + q) == ExtractValue(ExtractValue(v, p), q)
  {
    SplitConcat(p, q, Dot);
    var a := Split(p, Dot);
    var b := Split(q, Dot);
    WalkAppend(v, a, b);
    if Walk(v, a).None? {
      assert HasKey(JNull, b[0]) == false;
    }
  }

  /** `headline.main` is the key `main` inside the key `headline`, and,
      more generally, a dotted path without dots is one key. */
  lemma KeyPath(key: string)
    requires Dot !in key
    ensures Split(key, Dot) == [key]
  {
    SplitJoin([key], Dot);
  }

  lemma TwoKeyPath(k1: string, k2: string)
    requires Dot !in k1 && Dot !in k2
    ensures Split(k1 + [Dot] + k2, Dot) == [k1, k2]
  {
    SplitConcat(k1, k2, Dot);
    KeyPath(k1);
    KeyPath(k2);
  }

  lemma ThreeKeyPath(k1: string, k2: string, k3: string)
    requires Dot !in k1 && Dot !in k2 && Dot !in k3
    ensures Split(k1 + [Dot] + k2 + [Dot] + k3, Dot) == [k1, k2, k3]
  {
    TwoKeyPath(k2, k3);
    KeyPath(k1);
    SplitConcat(k1, k2 + [Dot] + k3, Dot);
    assert k1 + [Dot] + k2 + [Dot] + k3 == k1 + [Dot] + (k2 + [Dot] + k3);
  }
}
