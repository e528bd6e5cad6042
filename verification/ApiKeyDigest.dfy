/** What each request digest is computed over. */
module ApiKeyDigest {
  import opened Prelude
  import opened BigEndian
  import opened ApiKeys

  /** The facts a request digest binds. A creation, and nothing else, has no target. */
  datatype Binding = Binding(action: Action, tenant: Option<Id>, key: Id, actor: Id, target: Option<Id>, scope: Byte,
                             expiry: Option<U64>, expected: Generation)

  predicate Proper(b: Binding) {
    b.target.None? <==> b.action.Create?
  }

  function Label(action: Action, tenantBound: bool): Bytes {
    if tenantBound then
      match action
      case Create => Ascii("positron-tenant-api-key-create-request-v1")
      case Rotate => Ascii("positron-tenant-api-key-rotate-request-v1")
      case Revoke => Ascii("positron-tenant-api-key-revoke-request-v1")
    else
      match action
      case Create => Ascii("positron-api-key-create-request-v1")
      case Rotate => Ascii("positron-api-key-rotate-request-v1")
      case Revoke => Ascii("positron-api-key-revoke-request-v1")
  }

  /** A flagged expiry for the default tenant; eight bytes, zero for none, for the others. */
  function ExpiryBytes(expiry: Option<U64>, tenantBound: bool): Bytes {
    match expiry
    case Some(seconds) => if tenantBound then Encode(seconds, 8) else [1] + Encode(seconds, 8)
    case None => if tenantBound then Encode(0, 8) else [0]
  }

  function TargetBytes(b: Binding): Bytes {
    if b.target.Some? then Encode(b.target.value, 16) else []
  }

  function TenantBytes(b: Binding): Bytes {
    if b.tenant.Some? then Encode(b.tenant.value, 16) else []
  }

  function Preimage(b: Binding): Bytes {
    Label(b.action, b.tenant.Some?) + (Encode(b.key, 16) + (Encode(b.actor, 16) + (TenantBytes(b) + (TargetBytes(b) +
    ([b.scope] + (ExpiryBytes(b.expiry, b.tenant.Some?) + Encode(b.expected, 8)))))))
  }

  /** The bytes that tell the six labels apart. */
  lemma LabelBytes(action: Action, bound: bool)
    ensures |Label(action, bound)| == if bound then 41 else 34
    ensures Label(action, bound)[9] == if bound then 't' as int else 'a' as int
    ensures Label(action, bound)[if bound then 24 else 17] == if action.Create? then 'c' as int else 'r' as int
    ensures Label(action, bound)[if bound then 25 else 18] ==
            match action case Create => 'r' as int case Rotate => 'o' as int case Revoke => 'e' as int
  {
  }

  lemma LabelsDiffer(a: Action, x: bool, b: Action, y: bool, p: Bytes, q: Bytes)
    requires Label(a, x) + p == Label(b, y) + q
    ensures a == b && x == y && p == q
  {
    LabelBytes(a, x);
    LabelBytes(b, y);
    var l, m := Label(a, x), Label(b, y);
    assert (l + p)[9] == l[9] && (m + q)[9] == m[9];
    var at := if x then 24 else 17;
    assert (l + p)[at] == l[at] && (m + q)[at] == m[at];
    assert (l + p)[at + 1] == l[at + 1] && (m + q)[at + 1] == m[at + 1];
    assert p == (l + p)[|l|..] == (m + q)[|m|..] == q;
  }

  lemma SplitsAt(p: Bytes, q: Bytes, r: Bytes, s: Bytes)
    requires |p| == |q| && p + r == q + s
    ensures p == q && r == s
  {
    assert p == (p + r)[..|p|] == (q + s)[..|q|] == q;
    assert r == (p + r)[|p|..] == (q + s)[|q|..] == s;
  }

  lemma EncodeInjective(m: nat, n: nat, width: nat)
    requires m < Power256(width) && n < Power256(width) && Encode(m, width) == Encode(n, width)
    ensures m == n
  {
    DecodeEncode(m, width);
    DecodeEncode(n, width);
  }

  lemma ExpiriesSplit(a: Option<U64>, b: Option<U64>, bound: bool, x: Generation, y: Generation)
    requires bound ==> a != Some(0) && b != Some(0)
    requires ExpiryBytes(a, bound) + Encode(x, 8) == ExpiryBytes(b, bound) + Encode(y, 8)
    ensures a == b && x == y
  {
    Widths();
    assert |ExpiryBytes(a, bound) + Encode(x, 8)| == |ExpiryBytes(a, bound)| + 8;
    assert |ExpiryBytes(b, bound) + Encode(y, 8)| == |ExpiryBytes(b, bound)| + 8;
    SplitsAt(ExpiryBytes(a, bound), ExpiryBytes(b, bound), Encode(x, 8), Encode(y, 8));
    EncodeInjective(x, y, 8);
    var m, n := if a.Some? then a.value else 0, if b.Some? then b.value else 0;
    assert Encode(m, 8) == Encode(n, 8) by {
      if !bound {
        assert a.Some? <==> ExpiryBytes(a, bound)[0] == 1;
        assert b.Some? <==> ExpiryBytes(b, bound)[0] == 1;
        if a.Some? {
          assert Encode(m, 8) == ExpiryBytes(a, bound)[1..];
          assert Encode(n, 8) == ExpiryBytes(b, bound)[1..];
        }
      }
    }
    EncodeInjective(m, n, 8);
  }

  /** The binding as a tenant's digest reads it: an expiry of zero is none. */
  function Canon(b: Binding): (r: Binding)
    ensures Proper(b) ==> Proper(r)
  {
    if b.tenant.Some? && b.expiry == Some(0) then b.(expiry := None) else b
  }

  lemma CanonKeepsPreimage(b: Binding)
    ensures Preimage(Canon(b)) == Preimage(b)
  {
    assert ExpiryBytes(Some(0), true) == ExpiryBytes(None, true);
  }

  /** Two requests have the same digest preimage exactly when they agree in every bound fact, across all six
      operations, up to a zero expiry of a tenant's request. */
  lemma PreimageInjective(a: Binding, b: Binding)
    requires Proper(a) && Proper(b)
    ensures Preimage(a) == Preimage(b) <==> Canon(a) == Canon(b)
  {
    CanonKeepsPreimage(a);
    CanonKeepsPreimage(b);
    if Preimage(a) == Preimage(b) {
      CanonInjective(Canon(a), Canon(b));
    }
  }

  lemma CanonInjective(a: Binding, b: Binding)
    requires Proper(a) && Proper(b) && Canon(a) == a && Canon(b) == b
    requires Preimage(a) == Preimage(b)
    ensures a == b
  {
    Widths();
    var bound := a.tenant.Some?;
    var a5, b5 := ExpiryBytes(a.expiry, bound) + Encode(a.expected, 8), ExpiryBytes(b.expiry, b.tenant.Some?) + Encode(b.expected, 8);
    var a4, b4 := TargetBytes(a) + ([a.scope] + a5), TargetBytes(b) + ([b.scope] + b5);
    var a3, b3 := TenantBytes(a) + a4, TenantBytes(b) + b4;
    var a2, b2 := Encode(a.actor, 16) + a3, Encode(b.actor, 16) + b3;
    LabelsDiffer(a.action, bound, b.action, b.tenant.Some?, Encode(a.key, 16) + a2, Encode(b.key, 16) + b2);
    SplitsAt(Encode(a.key, 16), Encode(b.key, 16), a2, b2);
    SplitsAt(Encode(a.actor, 16), Encode(b.actor, 16), a3, b3);
    SplitsAt(TenantBytes(a), TenantBytes(b), a4, b4);
    SplitsAt(TargetBytes(a), TargetBytes(b), [a.scope] + a5, [b.scope] + b5);
    SplitsAt([a.scope], [b.scope], a5, b5);
    ExpiriesSplit(a.expiry, b.expiry, bound, a.expected, b.expected);
    EncodeInjective(a.key, b.key, 16);
    EncodeInjective(a.actor, b.actor, 16);
    if bound {
      EncodeInjective(a.tenant.value, b.tenant.value, 16);
    }
    if a.target.Some? {
      EncodeInjective(a.target.value, b.target.value, 16);
    }
  }

  /** A tenant's digest input is never a default-tenant one. */
  lemma TenantsAreTold(a: Binding, b: Binding)
    requires a.tenant.Some? && b.tenant.None?
    ensures Preimage(a) != Preimage(b)
  {
    var x := Encode(a.key, 16) + (Encode(a.actor, 16) + (TenantBytes(a) + (TargetBytes(a) + ([a.scope]
             + (ExpiryBytes(a.expiry, true) + Encode(a.expected, 8))))));
    var y := Encode(b.key, 16) + (Encode(b.actor, 16) + (TenantBytes(b) + (TargetBytes(b) + ([b.scope]
             + (ExpiryBytes(b.expiry, false) + Encode(b.expected, 8))))));
    if Preimage(a) == Preimage(b) {
      assert Label(a.action, true) + x == Label(b.action, false) + y;
      LabelsDiffer(a.action, true, b.action, false, x, y);
      assert false;
    }
  }

  /** So a tenant's request with expiry zero collides with the one without expiry, and the default tenant's, which
      flags its expiry, does not: the API refuses a zero expiry for the tenants' sake. */
  lemma ZeroExpiryCollides(b: Binding)
    requires Proper(b) && b.expiry == Some(0)
    ensures Preimage(b) == Preimage(b.(expiry := None)) <==> b.tenant.Some?
  {
    PreimageInjective(b, b.(expiry := None));
  }
}
