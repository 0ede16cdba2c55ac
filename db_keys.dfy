/** The typed key model: a closed set of key datatypes, their wire names and tags, an order
    defined only between values of one variant, and the extraction of a typed key value from a
    JSON document. */
module DbKeys {

  import opened Wrappers
  import opened Json
  import opened Errors

  type i64 = x: int | I64Min <= x < I64Bound
  type u64 = x: int | 0 <= x < U64Bound
  type u8 = x: int | 0 <= x < 0x100

  /** `KeyDatatype`: each variant carries a value of its kind. (The float variant is disabled
      in the source and absent here.) */
  datatype KeyDatatype =
    | Null
    | Boolean(b: bool)
    | SignedInt(i: i64)
    | UnsignedInt(u: u64)
    | String(s: string)

  /** `std::cmp::Ordering`. */
  datatype Ordering = Less | Equal | Greater {
    function Reverse(): Ordering {
      match this
      case Less => Greater
      case Equal => Equal
      case Greater => Less
    }
  }

  /** `Key`: the document field a key role reads, and the datatype its values must have. */
  datatype Key = Key(name: string, dtype: KeyDatatype)

  /** The words `from_str` recognises; every other string, "Null" included, means Null. */
  const DatatypeWords: set<string> := {"Boolean", "UnsignedInt", "SignedInt", "String"}

  /** `to_str`: the wire name of a datatype. */
  function ToStr(d: KeyDatatype): (r: string)
    ensures r == "Null" || r in DatatypeWords
    ensures r == "Null" <==> d.Null?
  {
    match d
    case Null => "Null"
    case Boolean(_) => "Boolean"
    case SignedInt(_) => "SignedInt"
    case UnsignedInt(_) => "UnsignedInt"
    case String(_) => "String"
  }

  /** `to_int`: the numeric tag of a datatype; 4 belonged to the disabled float variant. */
  function ToInt(d: KeyDatatype): (r: u8)
    ensures r in {0, 1, 2, 3, 5}
    ensures r == 0 <==> d.Null?
  {
    match d
    case Null => 0
    case Boolean(_) => 1
    case SignedInt(_) => 2
    case UnsignedInt(_) => 3
    case String(_) => 5
  }

  /** The payload is the zero value of its kind, as in the datatypes `from_int` and
      `from_str` produce. */
  predicate HasDefaultPayload(d: KeyDatatype) {
    match d
    case Null => true
    case Boolean(b) => !b
    case SignedInt(i) => i == 0
    case UnsignedInt(u) => u == 0
    case String(s) => s == ""
  }

  /** `from_int`: the tags 1, 2, 3 and 5 name their variant; every other byte means Null. */
  function FromInt(n: u8): (r: KeyDatatype)
    ensures n in {1, 2, 3, 5} ==> ToInt(r) == n
    ensures n !in {1, 2, 3, 5} ==> r == Null
    ensures HasDefaultPayload(r)
  {
    match n
    case 1 => Boolean(false)
    case 2 => SignedInt(0)
    case 3 => UnsignedInt(0)
    case 5 => String("")
    case _ => Null
  }

  /** `from_str`: the four datatype words name their variant; every other string means Null. */
  function FromStr(s: string): (r: KeyDatatype)
    ensures s in DatatypeWords ==> ToStr(r) == s
    ensures s !in DatatypeWords ==> r == Null
    ensures HasDefaultPayload(r)
  {
    match s
    case "Boolean" => Boolean(false)
    case "UnsignedInt" => UnsignedInt(0)
    case "SignedInt" => SignedInt(0)
    case "String" => String("")
    case _ => Null
  }

  /** Two key values belong to the same variant (carry the same tag). */
  predicate SameVariant(a: KeyDatatype, b: KeyDatatype) {
    ToInt(a) == ToInt(b)
  }

  /** Naming a datatype and reading the name back keeps its variant. */
  lemma StrRoundTrip(d: KeyDatatype)
    ensures SameVariant(FromStr(ToStr(d)), d)
    ensures HasDefaultPayload(d) ==> FromStr(ToStr(d)) == d
  {
  }

  /** Tagging a datatype and reading the tag back keeps its variant. */
  lemma IntRoundTrip(d: KeyDatatype)
    ensures SameVariant(FromInt(ToInt(d)), d)
    ensures HasDefaultPayload(d) ==> FromInt(ToInt(d)) == d
  {
  }

  /** `PartialEq::eq`, defined only within one variant (the source panics otherwise). */
  function Eq(a: KeyDatatype, b: KeyDatatype): (r: bool)
    requires SameVariant(a, b)
    ensures r <==> a == b
  {
    match a
    case Null => true
    case Boolean(x) => x == b.b
    case SignedInt(x) => x == b.i
    case UnsignedInt(x) => x == b.u
    case String(x) => x == b.s
  }

  /** The order of integers. */
  function IntCmp(x: int, y: int): Ordering {
    if x < y then Less else if x == y then Equal else Greater
  }

  /** Strict lexicographic order on character sequences, stated directly: a common prefix
      followed either by the end of `s` or by a smaller character. */
  ghost predicate LexLess(s: string, t: string) {
    exists k :: 0 <= k <= |s| && k <= |t| && s[..k] == t[..k] &&
                (k == |s| < |t| || (k < |s| && k < |t| && s[k] < t[k]))
  }

  /** `String::cmp`: character by character. Ordering by code point is the same as Rust's
      ordering of the UTF-8 bytes. */
  function StrCmp(s: string, t: string): (r: Ordering)
    ensures r == Equal <==> s == t
    ensures r == Less <==> LexLess(s, t)
    ensures r == Greater <==> LexLess(t, s)
  {
    if s == [] then
      LexLessEmpty(t);
      if t == [] then Equal else Less
    else if t == [] then
      LexLessEmpty(s);
      Greater
    else if s[0] != t[0] then
      LexLessHead(s, t);
      if s[0] < t[0] then Less else Greater
    else
      LexLessTail(s, t);
      LexLessTail(t, s);
      assert s == [s[0]] + s[1..] && t == [t[0]] + t[1..];
      StrCmp(s[1..], t[1..])
  }

  lemma LexLessEmpty(t: string)
    ensures LexLess([], t) <==> t != []
    ensures !LexLess(t, [])
  {
    if t != [] {
      assert [][..0] == t[..0];
    }
  }

  lemma LexLessHead(s: string, t: string)
    requires s != [] && t != [] && s[0] != t[0]
    ensures LexLess(s, t) <==> s[0] < t[0]
  {
    if s[0] < t[0] {
      assert s[..0] == t[..0];
    }
    if LexLess(s, t) {
      var k :| 0 <= k <= |s| && k <= |t| && s[..k] == t[..k] &&
               (k == |s| < |t| || (k < |s| && k < |t| && s[k] < t[k]));
      assert k > 0 ==> s[..k][0] == t[..k][0];
    }
  }

  lemma LexLessTail(s: string, t: string)
    requires s != [] && t != [] && s[0] == t[0]
    ensures LexLess(s, t) <==> LexLess(s[1..], t[1..])
  {
    if LexLess(s, t) {
      var k :| 0 <= k <= |s| && k <= |t| && s[..k] == t[..k] &&
               (k == |s| < |t| || (k < |s| && k < |t| && s[k] < t[k]));
      assert k > 0;
      assert s[1..][..k - 1] == s[..k][1..] == t[..k][1..] == t[1..][..k - 1];
      assert LexLess(s[1..], t[1..]) by {
        var j := k - 1;
        assert 0 <= j <= |s[1..]| && j <= |t[1..]| && s[1..][..j] == t[1..][..j];
        assert j == |s[1..]| < |t[1..]| || (j < |s[1..]| && j < |t[1..]| && s[1..][j] < t[1..][j]);
      }
    }
    if LexLess(s[1..], t[1..]) {
      var j :| 0 <= j <= |s[1..]| && j <= |t[1..]| && s[1..][..j] == t[1..][..j] &&
               (j == |s[1..]| < |t[1..]| || (j < |s[1..]| && j < |t[1..]| && s[1..][j] < t[1..][j]));
      assert s[..j + 1] == [s[0]] + s[1..][..j];
      assert t[..j + 1] == [t[0]] + t[1..][..j];
      assert s[..j + 1] == t[..j + 1];
      assert j + 1 == |s| < |t| || (j + 1 < |s| && j + 1 < |t| && s[j + 1] < t[j + 1]);
    }
  }

  /** `Ord::cmp`, defined only within one variant (the source panics otherwise); within a
      variant it is the order of the payloads: `false < true`, numeric order for integers,
      lexicographic order for strings. */
  function Cmp(a: KeyDatatype, b: KeyDatatype): (r: Ordering)
    requires SameVariant(a, b)
    ensures r == Equal <==> a == b
    ensures a.Boolean? ==> (r == Less <==> !a.b && b.b)
    ensures a.SignedInt? ==> (r == Less <==> a.i < b.i)
    ensures a.UnsignedInt? ==> (r == Less <==> a.u < b.u)
    ensures a.String? ==> (r == Less <==> LexLess(a.s, b.s))
  {
    match a
    case Null => Equal
    case Boolean(x) => IntCmp(if x then 1 else 0, if b.b then 1 else 0)
    case SignedInt(x) => IntCmp(x, b.i)
    case UnsignedInt(x) => IntCmp(x, b.u)
    case String(x) => StrCmp(x, b.s)
  }

  /** Swapping the operands reverses the outcome. */
  lemma CmpAntisymmetric(a: KeyDatatype, b: KeyDatatype)
    requires SameVariant(a, b)
    ensures Cmp(b, a) == Cmp(a, b).Reverse()
  {
  }

  lemma {:induction false} StrCmpTransitive(s: string, t: string, u: string)
    requires StrCmp(s, t) == Less && StrCmp(t, u) == Less
    ensures StrCmp(s, u) == Less
  {
    if s != [] && t != [] && u != [] && s[0] == t[0] && t[0] == u[0] {
      StrCmpTransitive(s[1..], t[1..], u[1..]);
    }
  }

  /** `Less` is transitive within a variant. */
  lemma CmpTransitive(a: KeyDatatype, b: KeyDatatype, c: KeyDatatype)
    requires SameVariant(a, b) && SameVariant(b, c)
    requires Cmp(a, b) == Less && Cmp(b, c) == Less
    ensures Cmp(a, c) == Less
  {
    if a.String? {
      StrCmpTransitive(a.s, b.s, c.s);
    }
  }

  /** `a` sorts strictly before `b`, both of one variant. */
  predicate KeyLess(a: KeyDatatype, b: KeyDatatype) {
    SameVariant(a, b) && Cmp(a, b) == Less
  }

  /** A non-empty finite set of key values of one variant has a least element, `m`. */
  lemma {:induction false} MinimumExists(ks: set<KeyDatatype>, d: KeyDatatype) returns (m: KeyDatatype)
    requires ks != {} && forall k :: k in ks ==> SameVariant(k, d)
    ensures m in ks && forall k :: k in ks && k != m ==> KeyLess(m, k)
    decreases ks
  {
    var x :| x in ks;
    var rest := ks - {x};
    if rest == {} {
      assert ks == rest + {x};
      m := x;
    } else {
      var least := MinimumExists(rest, d);
      assert SameVariant(x, d) && SameVariant(least, d);
      if Cmp(x, least) == Less {
        NewLeast(ks, x, least);
        m := x;
      } else {
        KeepLeast(ks, x, least);
        m := least;
      }
    }
  }

  /** An element below the least of the others is the least of all. */
  lemma NewLeast(ks: set<KeyDatatype>, x: KeyDatatype, m: KeyDatatype)
    requires x in ks && m in ks - {x} && SameVariant(x, m) && Cmp(x, m) == Less
    requires forall k :: k in ks - {x} && k != m ==> KeyLess(m, k)
    ensures forall k :: k in ks && k != x ==> KeyLess(x, k)
  {
    forall k | k in ks && k != x ensures KeyLess(x, k) {
      if k != m {
        assert k in ks - {x} && KeyLess(m, k);
        CmpTransitive(x, m, k);
      }
    }
  }

  /** An element not below the least of the others leaves that least element least. */
  lemma KeepLeast(ks: set<KeyDatatype>, x: KeyDatatype, m: KeyDatatype)
    requires x in ks && m in ks - {x} && SameVariant(x, m) && Cmp(x, m) != Less
    requires forall k :: k in ks - {x} && k != m ==> KeyLess(m, k)
    ensures forall k :: k in ks && k != m ==> KeyLess(m, k)
  {
    CmpAntisymmetric(x, m);
    assert KeyLess(m, x);
    forall k | k in ks && k != m ensures KeyLess(m, k) {
      if k != x {
        assert k in ks - {x};
      }
    }
  }

  /** The least element compares `Equal` or `Less` with every element: it is what an
      ascending walk with `Cmp` meets first. */
  lemma LeastByCmp(ks: set<KeyDatatype>, d: KeyDatatype)
    requires ks != {} && forall k :: k in ks ==> SameVariant(k, d)
    ensures exists m :: m in ks && forall k :: k in ks ==> SameVariant(m, k) && Cmp(m, k) != Greater
  {
    var m := MinimumExists(ks, d);
    forall k | k in ks ensures SameVariant(m, k) && Cmp(m, k) != Greater {
      assert SameVariant(k, d);
    }
  }

  /** The JSON value a key value is read from. */
  function KeyToJson(k: KeyDatatype): Value {
    match k
    case Null => JNull
    case Boolean(b) => JBool(b)
    case SignedInt(i) => JNum(i)
    case UnsignedInt(u) => JNum(u)
    case String(s) => JStr(s)
  }

  /** The error for an absent or wrongly typed key field. */
  function TypeMismatch(key: Key): DbError {
    MissingFields("Field " + key.name + " must exist and be of type " + ToStr(key.dtype) + ".")
  }

  /** `validate`: the payload must be an object (BadInput otherwise); then, unless the
      datatype is Null, the key's field must be present with the JSON kind of its datatype
      (MissingFields otherwise). */
  function Validate(key: Key, info: Value): (r: Errors.Result<()>)
    ensures !info.JObj? ==> r == Err(BadInput("Payload must be a valid JSON object!"))
    ensures info.JObj? && key.dtype.Null? ==> r.Ok?
    ensures info.JObj? && r.Err? ==> r == Err(TypeMismatch(key))
  {
    if !info.JObj? then Err(BadInput("Payload must be a valid JSON object!"))
    else match key.dtype
      case Null => Ok(())
      case Boolean(_) =>
        if Get(info, key.name).Some? && Get(info, key.name).value.JBool? then Ok(())
        else Err(TypeMismatch(key))
      case SignedInt(_) =>
        if Get(info, key.name).Some? && Get(info, key.name).value.IsI64() then Ok(())
        else Err(TypeMismatch(key))
      case UnsignedInt(_) =>
        if Get(info, key.name).Some? && Get(info, key.name).value.IsU64() then Ok(())
        else Err(TypeMismatch(key))
      case String(_) =>
        if Get(info, key.name).Some? && Get(info, key.name).value.JStr? then Ok(())
        else Err(TypeMismatch(key))
  }

  /** On an object and a non-Null datatype, validation accepts exactly the payloads whose key
      field holds a JSON value of the datatype's kind (`is_boolean`, `is_i64`, `is_u64`,
      `is_string`). */
  lemma ValidateAcceptsFittingField(key: Key, info: Value)
    requires info.JObj? && !key.dtype.Null?
    ensures Validate(key, info).Ok? <==> FieldFits(key, info)
  {
    if Validate(key, info).Ok? {
      var f := info.fields[key.name];
      var k := match key.dtype
        case Boolean(_) => Boolean(f.b)
        case SignedInt(_) => SignedInt(f.n as i64)
        case UnsignedInt(_) => UnsignedInt(f.n as u64)
        case String(_) => String(f.s);
      assert SameVariant(k, key.dtype) && KeyToJson(k) == f;
    }
  }

  /** The document's field holds the JSON image of some value of the key's variant. */
  ghost predicate FieldFits(key: Key, info: Value)
    requires info.JObj?
  {
    key.name in info.fields &&
    exists k :: SameVariant(k, key.dtype) && KeyToJson(k) == info.fields[key.name]
  }

  /** `extract_key`: the typed value of the key's field. It succeeds exactly on an object whose
      field fits the key's datatype (any object, when the datatype is Null); the value has the
      declared variant and is the document's own field value. */
  function ExtractKey(key: Key, info: Value): (r: Errors.Result<KeyDatatype>)
    ensures !info.JObj? ==> r == Err(BadInput("Payload must be a valid JSON object!"))
    ensures info.JObj? && key.dtype.Null? ==> r == Ok(Null)
    ensures info.JObj? && !key.dtype.Null? ==>
              (r.Ok? <==> FieldFits(key, info)) && (r.Err? ==> r == Err(TypeMismatch(key)))
    ensures r.Ok? ==> SameVariant(r.value, key.dtype)
    ensures r.Ok? && !key.dtype.Null? ==> KeyToJson(r.value) == info.fields[key.name]
  {
    match Validate(key, info)
    case Err(e) => Err(e)
    case Ok(_) =>
      var k := match key.dtype
        case Null => Null
        case Boolean(_) => Boolean(info.fields[key.name].b)
        case SignedInt(_) => SignedInt(info.fields[key.name].n)
        case UnsignedInt(_) => UnsignedInt(info.fields[key.name].n)
        case String(_) => String(info.fields[key.name].s);
      assert !key.dtype.Null? ==> KeyToJson(k) == info.fields[key.name];
      Ok(k)
  }
}
