/**
 * The Authority domain class: a named security role with a set of permissions,
 * whose identity (equals and hashCode) is its name alone.
 */
module Authorities {
  import opened Wrappers

  /** A permission attached to an authority; only its identity is modelled. */
  datatype Permission = Permission(id: string)

  /** Java's 32-bit `int`. */
  type JavaInt = i: int | -0x8000_0000 <= i < 0x8000_0000

  /** Java's narrowing of an integer to `int`: the value in range that is congruent modulo 2^32. */
  function ToJavaInt(x: int): (r: JavaInt)
    ensures (x - r) % 0x1_0000_0000 == 0
  {
    var m := x % 0x1_0000_0000;
    if m < 0x8000_0000 then m else m - 0x1_0000_0000
  }

  /** The documented value of `String.hashCode` before narrowing: s[0]*31^(n-1) + ... + s[n-1]. */
  function HashPolynomial(s: string): int
  {
    if |s| == 0 then 0 else 31 * HashPolynomial(s[..|s| - 1]) + s[|s| - 1] as int
  }

  lemma ToJavaIntCongruent(x: int, y: int)
    requires (x - y) % 0x1_0000_0000 == 0
    ensures ToJavaInt(x) == ToJavaInt(y)
  {
  }

  /** Narrowing before one hash step gives the same `int` as narrowing after it. */
  lemma NarrowingCommutesWithStep(e: int, c: int)
    ensures ToJavaInt(31 * ToJavaInt(e) + c) == ToJavaInt(31 * e + c)
  {
    var h := ToJavaInt(e);
    var k := (e - h) / 0x1_0000_0000;
    assert e - h == 0x1_0000_0000 * k;
    assert (31 * e + c) - (31 * h + c) == 0x1_0000_0000 * (31 * k);
    ToJavaIntCongruent(31 * e + c, 31 * h + c);
  }

  /**
   * Java's `String.hashCode`: h := 31 * h + c for each character, in `int` arithmetic.
   * Wrapping after every step gives the same `int` as wrapping the exact polynomial once.
   */
  function StringHash(s: string): (h: JavaInt)
    ensures h == ToJavaInt(HashPolynomial(s))
  {
    if |s| == 0 then 0
    else
      var p, c := s[..|s| - 1], s[|s| - 1] as int;
      NarrowingCommutesWithStep(HashPolynomial(p), c);
      ToJavaInt(31 * StringHash(p) + c)
  }

  /** The argument of `Authority.equals(Object)`: null, an Authority, or an object of another class. */
  datatype EqualsArg = NullArg | AuthorityArg(a: Authority) | ForeignArg

  /**
   * An element of a `Set<Authority>` as a Java HashSet tells elements apart: the null
   * reference, or an authority up to `equals`, that is, its name (itself possibly null).
   */
  datatype AuthorityRef = NullRef | Ref(name: Option<string>)

  class Authority {
    /** The role name, the document id; `None` is Java's null. */
    var name: Option<string>
    var permissions: set<Permission>

    constructor ()
      ensures name == None && permissions == {}
    {
      name := None;
      permissions := {};
    }

    method SetName(name: Option<string>)
      modifies this
      ensures this.name == name && permissions == old(permissions)
    {
      this.name := name;
    }

    /** The source's setter for the permission set is named `setAuthorities`. */
    method SetAuthorities(permissions: set<Permission>)
      modifies this
      ensures this.permissions == permissions && name == old(name)
    {
      this.permissions := permissions;
    }

    /** `equals`: the same object, or another Authority whose name equals this one (null equal to null). */
    predicate Equals(o: EqualsArg)
      reads this, if o.AuthorityArg? then {o.a} else {}
      ensures Equals(o) <==> o.AuthorityArg? && o.a.name == name
    {
      if o.AuthorityArg? && o.a == this then true
      else if !o.AuthorityArg? then false
      else if name.Some? then o.a.name.Some? && name.value == o.a.name.value
      else o.a.name.None?
    }

    /** `hashCode`: 0 for a null name, the name's string hash otherwise. */
    function HashCode(): (h: JavaInt)
      reads this
      ensures name.None? ==> h == 0
      ensures name.Some? ==> h == ToJavaInt(HashPolynomial(name.value))
    {
      if name.Some? then StringHash(name.value) else 0
    }
  }

  /** The HashSet element an authority becomes. */
  function RefOf(a: Authority): AuthorityRef
    reads a
  {
    Ref(a.name)
  }

  lemma EqualsIsReflexive(a: Authority)
    ensures a.Equals(AuthorityArg(a))
  {
  }

  lemma EqualsRejectsNullAndForeign(a: Authority)
    ensures !a.Equals(NullArg) && !a.Equals(ForeignArg)
  {
  }

  lemma EqualsIsSymmetric(a: Authority, b: Authority)
    ensures a.Equals(AuthorityArg(b)) <==> b.Equals(AuthorityArg(a))
  {
  }

  lemma EqualsIsTransitive(a: Authority, b: Authority, c: Authority)
    requires a.Equals(AuthorityArg(b)) && b.Equals(AuthorityArg(c))
    ensures a.Equals(AuthorityArg(c))
  {
  }

  /** Two authorities are equal exactly when they become the same HashSet element. */
  lemma EqualsIffSameRef(a: Authority, b: Authority)
    ensures a.Equals(AuthorityArg(b)) <==> RefOf(a) == RefOf(b)
  {
  }

  lemma HashCodeOfNullName(a: Authority)
    requires a.name.None?
    ensures a.HashCode() == 0
  {
  }

  /** hashCode is consistent with equals. */
  lemma HashCodeConsistentWithEquals(a: Authority, b: Authority)
    requires a.Equals(AuthorityArg(b))
    ensures a.HashCode() == b.HashCode()
  {
  }

  /** Permissions take no part in identity. */
  lemma PermissionsIgnoredByIdentity(a: Authority, b: Authority)
    requires a.name == b.name
    ensures a.Equals(AuthorityArg(b)) && a.HashCode() == b.HashCode()
  {
  }
}
