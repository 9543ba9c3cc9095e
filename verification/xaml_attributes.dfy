/**
 * Text helpers of the .NET string type that the XAML access levels use:
 * String.IndexOf(char) and String.Trim().
 */
module DotNetStrings {

  /** char.IsWhiteSpace: the Unicode separators and the control characters U+0009..U+000D, U+0085. */
  predicate IsWhiteSpace(c: char)
  {
    || '\U{0009}' <= c <= '\U{000D}' || c == '\U{0020}' || c == '\U{0085}' || c == '\U{00A0}'
    || c == '\U{1680}' || '\U{2000}' <= c <= '\U{200A}' || c == '\U{2028}' || c == '\U{2029}'
    || c == '\U{202F}' || c == '\U{205F}' || c == '\U{3000}'
  }

  /** IndexOf: the first index of c, or -1. */
  function IndexOf(s: string, c: char): (r: int)
    ensures -1 <= r < |s|
    ensures r == -1 <==> c !in s
    ensures r >= 0 ==> s[r] == c && c !in s[..r]
  {
    if s == [] then -1
    else if s[0] == c then 0
    else var k := IndexOf(s[1..], c); if k == -1 then -1 else (assert s[..k + 1] == [s[0]] + s[1..][..k]; k + 1)
  }

  /** A character at b that does not occur before b is found at b. */
  lemma IndexOfFirst(s: string, c: char, b: nat)
    requires b < |s| && s[b] == c && c !in s[..b]
    ensures IndexOf(s, c) == b
  {
  }

  /** TrimStart: without its leading white space. */
  function TrimStart(s: string): (r: string)
    ensures |r| <= |s| && r == s[|s| - |r|..]
    ensures r == [] || !IsWhiteSpace(r[0])
    ensures forall k :: 0 <= k < |s| - |r| ==> IsWhiteSpace(s[k])
  {
    if s != [] && IsWhiteSpace(s[0]) then TrimStart(s[1..]) else s
  }

  /** TrimEnd: without its trailing white space. */
  function TrimEnd(s: string): (r: string)
    ensures |r| <= |s| && r == s[..|r|]
    ensures r == [] || !IsWhiteSpace(r[|r| - 1])
    ensures forall k :: |r| <= k < |s| ==> IsWhiteSpace(s[k])
  {
    if s != [] && IsWhiteSpace(s[|s| - 1]) then TrimEnd(s[..|s| - 1]) else s
  }

  function Trim(s: string): string
  {
    TrimEnd(TrimStart(s))
  }

  /** A string that neither starts nor ends with white space. */
  predicate Trimmed(s: string)
  {
    s == [] || (!IsWhiteSpace(s[0]) && !IsWhiteSpace(s[|s| - 1]))
  }

  /** Trim takes characters out and adds none, and leaves no white space at either end. */
  lemma TrimKeepsOut(s: string, c: char)
    ensures Trimmed(Trim(s))
    ensures c !in s ==> c !in Trim(s)
  {
    var t := TrimStart(s);
    var r := TrimEnd(t);
    if r != [] {
      assert r[0] == t[0];
    }
    if c in r {
      var i :| 0 <= i < |r| && r[i] == c;
      assert t[i] == c;
      assert s[|s| - |t| + i] == c;
    }
  }

  /** White space before a trimmed string is all that Trim takes away. */
  lemma {:induction false} TrimPadded(pre: string, s: string)
    requires Trimmed(s) && s != []
    requires forall k :: 0 <= k < |pre| ==> IsWhiteSpace(pre[k])
    ensures Trim(pre + s) == s
    decreases |pre|
  {
    if pre != [] {
      assert (pre + s)[1..] == pre[1..] + s;
      TrimPadded(pre[1..], s);
    } else {
      assert pre + s == s;
    }
  }
}

/**
 * XamlLoadPermission and XamlAccessLevel (System.Xaml/otherassemblyattrs.cs):
 * the permission is a stub that grants everything; an access level names
 * an assembly and, for private access, a type in it.  Parsing an assembly
 * name and asking a loaded type or assembly for its names are calls
 * outside this model: they are parameters.
 */
module XamlPermissions {
  import opened HResults
  import opened DotNetStrings

  /** An access level: the assembly's full name, and the type's full name for private access (null otherwise). */
  datatype XamlAccessLevel = XamlAccessLevel(assemblyNameString: string, privateAccessToTypeName: Option<string>)

  /** AssemblyAccessTo(Assembly) and AssemblyAccessTo(AssemblyName): access to the whole assembly. */
  function AssemblyAccessTo(assemblyFullName: string): (r: XamlAccessLevel)
    ensures r.privateAccessToTypeName.None? && r.assemblyNameString == assemblyFullName
  {
    XamlAccessLevel(assemblyFullName, None)
  }

  /** PrivateAccessTo(Type): the type's assembly and its full name. */
  function PrivateAccessToType(typeAssemblyFullName: string, typeFullName: string): (r: XamlAccessLevel)
    ensures r.privateAccessToTypeName == Some(typeFullName) && r.assemblyNameString == typeAssemblyFullName
  {
    XamlAccessLevel(typeAssemblyFullName, Some(typeFullName))
  }

  /**
   * PrivateAccessTo(string): the type name is the trimmed text before the
   * first comma and the assembly the trimmed text after it, given to
   * new AssemblyName (the parameter, None when it throws).  With no comma,
   * Substring(0, -1) throws.
   */
  function PrivateAccessTo(assemblyQualifiedTypeName: string, assemblyName: string -> Option<string>): (r: Option<XamlAccessLevel>)
    ensures ',' !in assemblyQualifiedTypeName ==> r.None?
    ensures r.Some? ==> (r.value.privateAccessToTypeName.Some?
      && ',' !in r.value.privateAccessToTypeName.value && Trimmed(r.value.privateAccessToTypeName.value))
  {
    var nameBoundary := IndexOf(assemblyQualifiedTypeName, ',');
    if nameBoundary < 0 then None
    else
      var typeName := Trim(assemblyQualifiedTypeName[..nameBoundary]);
      var assemblyFullName := Trim(assemblyQualifiedTypeName[nameBoundary + 1..]);
      TrimKeepsOut(assemblyQualifiedTypeName[..nameBoundary], ',');
      match assemblyName(assemblyFullName)
      case None => None
      case Some(fullName) => Some(XamlAccessLevel(fullName, Some(typeName)))
  }

  /**
   * The assembly-qualified name of a type, "FullName, AssemblyFullName",
   * gives through PrivateAccessTo(string) the access level
   * PrivateAccessTo(Type) gives, when the type's name has no comma and the
   * assembly's full name parses to itself.
   */
  lemma PrivateAccessToAgreesWithType(typeFullName: string, assemblyFullName: string, assemblyName: string -> Option<string>)
    requires typeFullName != [] && Trimmed(typeFullName) && ',' !in typeFullName
    requires assemblyFullName != [] && Trimmed(assemblyFullName)
    requires assemblyName(assemblyFullName) == Some(assemblyFullName)
    ensures PrivateAccessTo(typeFullName + ", " + assemblyFullName, assemblyName)
      == Some(PrivateAccessToType(assemblyFullName, typeFullName))
  {
    var s := typeFullName + ", " + assemblyFullName;
    var b := |typeFullName|;
    QualifiedNameParts(typeFullName, assemblyFullName);
    assert assemblyName(Trim(s[b + 1..])) == Some(assemblyFullName);
  }

  /** "FullName, AssemblyFullName" splits at its first comma back into its two trimmed names. */
  lemma QualifiedNameParts(typeFullName: string, assemblyFullName: string)
    requires typeFullName != [] && Trimmed(typeFullName) && ',' !in typeFullName
    requires assemblyFullName != [] && Trimmed(assemblyFullName)
    ensures var s := typeFullName + ", " + assemblyFullName;
      && IndexOf(s, ',') == |typeFullName|
      && Trim(s[..|typeFullName|]) == typeFullName
      && Trim(s[|typeFullName| + 1..]) == assemblyFullName
  {
    var s := typeFullName + ", " + assemblyFullName;
    var b := |typeFullName|;
    assert s[..b] == typeFullName;
    IndexOfFirst(s, ',', b);
    TrimPadded([], typeFullName);
    assert [] + typeFullName == typeFullName;
    assert s[b + 1..] == [' '] + assemblyFullName;
    TrimPadded([' '], assemblyFullName);
  }

  /** The type name is cut at the first comma: a type name holding one is not kept whole. */
  lemma PrivateAccessToCutsAtFirstComma(before: string, after: string, assemblyFullName: string, assemblyName: string -> Option<string>)
    requires ',' !in before
    ensures var r := PrivateAccessTo(before + "," + after + ", " + assemblyFullName, assemblyName);
      r.Some? ==> r.value.privateAccessToTypeName == Some(Trim(before))
  {
    var s := before + "," + after + ", " + assemblyFullName;
    assert s[|before|] == ',';
    assert s[..|before|] == before;
    assert IndexOf(s, ',') == |before|;
  }

  /** XamlLoadPermission: every constructor makes a permission that grants everything. */
  class XamlLoadPermission {
    const allowedAccess: seq<XamlAccessLevel>

    /** XamlLoadPermission(PermissionState), (XamlAccessLevel) and (IEnumerable): the argument is ignored. */
    constructor (ignored: seq<XamlAccessLevel>)
      ensures allowedAccess == []
    {
      allowedAccess := [];
    }

    /** Equals: reference equality. */
    predicate Equals(obj: object?)
      ensures Equals(obj) <==> obj == this
    {
      obj == this
    }

    predicate Includes(requestedAccess: XamlAccessLevel)
      ensures Includes(requestedAccess)
    {
      true
    }

    predicate IsSubsetOf(target: XamlLoadPermission?)
      ensures IsSubsetOf(target)
    {
      true
    }

    predicate IsUnrestricted()
      ensures IsUnrestricted()
    {
      true
    }

    /** Copy, Intersect and Union: a new unrestricted permission, never Equal to this one. */
    method Copy() returns (p: XamlLoadPermission)
      ensures fresh(p) && p.allowedAccess == [] && !Equals(p) && p.IsUnrestricted()
    {
      p := new XamlLoadPermission([]);
    }
  }

  /** Every permission is a subset of every other, so any two include each other, though no two distinct ones are Equal. */
  lemma PermissionsInterchangeable(p: XamlLoadPermission, q: XamlLoadPermission)
    ensures p.IsSubsetOf(q) && q.IsSubsetOf(p)
    ensures p.Equals(q) <==> p == q
  {
  }
}

/**
 * ValueSerializerAttribute (System.Xaml/otherassemblyattrs.cs): names a
 * value serializer by type or by type name, and resolves a name to a type
 * the first time it is asked for it.  Type.GetType is a parameter.
 */
module ValueSerializers {
  import opened HResults

  /** A loaded type, by its assembly-qualified name. */
  datatype TypeRef = TypeRef(assemblyQualifiedName: string)

  /** The type after a ValueSerializerType call: the one held, else the name resolved. */
  function Resolved(held: Option<TypeRef>, typeName: Option<string>, getType: string -> Option<TypeRef>): (r: Option<TypeRef>)
    ensures held.Some? ==> r == held
    ensures held.None? && typeName.None? ==> r.None?
    ensures held.None? && typeName.Some? ==> r == getType(typeName.value)
  {
    if held.None? && typeName.Some? then getType(typeName.value) else held
  }

  /** The cache settles: once resolved to a type, asking again changes nothing. */
  lemma ResolvedSettles(held: Option<TypeRef>, typeName: Option<string>, getType: string -> Option<TypeRef>)
    ensures var once := Resolved(held, typeName, getType);
      Resolved(once, typeName, getType) == once
  {
  }

  /** ValueSerializerTypeName for a held type and a stored name. */
  function TypeNameOf(held: Option<TypeRef>, typeName: Option<string>): (r: Option<string>)
    ensures held.Some? ==> r == Some(held.value.assemblyQualifiedName)
    ensures held.None? ==> r == typeName
  {
    if held.Some? then Some(held.value.assemblyQualifiedName) else typeName
  }

  /**
   * Built from a name, the attribute answers that name until the name is
   * resolved, and after it the resolved type's qualified name.
   */
  lemma TypeNameAfterResolve(name: string, getType: string -> Option<TypeRef>)
    ensures TypeNameOf(None, Some(name)) == Some(name)
    ensures var t := Resolved(None, Some(name), getType);
      TypeNameOf(t, Some(name)) == if t.Some? then Some(t.value.assemblyQualifiedName) else Some(name)
  {
  }

  class ValueSerializerAttribute {
    var valueSerializerType: Option<TypeRef>
    const valueSerializerTypeName: Option<string>

    constructor FromType(t: TypeRef)
      ensures valueSerializerType == Some(t) && valueSerializerTypeName.None?
    {
      valueSerializerType := Some(t);
      valueSerializerTypeName := None;
    }

    constructor FromName(name: string)
      ensures valueSerializerType.None? && valueSerializerTypeName == Some(name)
    {
      valueSerializerType := None;
      valueSerializerTypeName := Some(name);
    }

    /** ValueSerializerType: resolve the name on first use and keep the type. */
    method ValueSerializerType(getType: string -> Option<TypeRef>) returns (t: Option<TypeRef>)
      modifies this`valueSerializerType
      ensures valueSerializerType == Resolved(old(valueSerializerType), valueSerializerTypeName, getType)
      ensures t == valueSerializerType
    {
      if valueSerializerType.None? && valueSerializerTypeName.Some? {
        valueSerializerType := getType(valueSerializerTypeName.value);
      }
      t := valueSerializerType;
    }

    function ValueSerializerTypeName(): (r: Option<string>)
      reads this
      ensures r == TypeNameOf(valueSerializerType, valueSerializerTypeName)
    {
      if valueSerializerType.Some? then Some(valueSerializerType.value.assemblyQualifiedName)
      else valueSerializerTypeName
    }
  }
}
