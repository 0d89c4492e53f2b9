/** The machine identity of the cluster master, `ComputeDriver::MachineId` in
    src/blackrock/master.h: a role and an ordinal index, compared first by role
    and then by index, and named by a hostname such as "storage123". */
module ComputeDriver {
  import opened Wrappers
  import Decimal

  /** The six machine roles, in the order the source declares them. */
  datatype MachineType = Storage | Worker | Coordinator | Frontend | Mongo | Gateway

  /** The number of values of the source's 32-bit `uint`. */
  const UintLimit: nat := 0x1_0000_0000

  type Uint = i: int | 0 <= i < UintLimit

  /** The underlying value of a `MachineType` enumerator: its position in the declaration. */
  function Ordinal(t: MachineType): (k: nat)
    ensures k < 6
  {
    match t
    case Storage => 0
    case Worker => 1
    case Coordinator => 2
    case Frontend => 3
    case Mongo => 4
    case Gateway => 5
  }

  /** The built-in `<` of the scoped enumeration, which compares underlying values. */
  function TypeLess(s: MachineType, t: MachineType): (r: bool)
    ensures r ==> s != t
  {
    Ordinal(s) < Ordinal(t)
  }

  /** `kind` stands for the source's field `type`, a reserved word in Dafny. */
  datatype MachineId = MachineId(kind: MachineType, index: Uint)

  /** `operator==`: both fields agree. */
  function Equal(a: MachineId, b: MachineId): (r: bool)
    ensures r <==> a == b
  {
    a.kind == b.kind && a.index == b.index
  }

  /** A reference key for the order: the role selects a block of 2^32 slots and
      the index a slot within it. */
  function Rank(id: MachineId): (k: nat)
    ensures Ordinal(id.kind) * UintLimit <= k < (Ordinal(id.kind) + 1) * UintLimit
  {
    Ordinal(id.kind) * UintLimit + id.index
  }

  /** `operator<`, the nested conditional of the source. */
  function Less(a: MachineId, b: MachineId): (r: bool)
    ensures r <==> Rank(a) < Rank(b)
  {
    if TypeLess(a.kind, b.kind) then true
    else if TypeLess(b.kind, a.kind) then false
    else a.index < b.index
  }

  lemma {:induction false} OrdinalInjective(s: MachineType, t: MachineType)
    ensures Ordinal(s) == Ordinal(t) ==> s == t
  {
    match s
    case Storage =>
    case Worker =>
    case Coordinator =>
    case Frontend =>
    case Mongo =>
    case Gateway =>
  }

  /** Distinct ids have distinct keys, so the key order is the order on ids. */
  lemma RankInjective(a: MachineId, b: MachineId)
    ensures Rank(a) == Rank(b) ==> a == b
  {
    if Rank(a) == Rank(b) {
      assert Ordinal(a.kind) == Ordinal(b.kind);
      OrdinalInjective(a.kind, b.kind);
    }
  }

  /** No id is less than itself. */
  lemma LessIrreflexive(a: MachineId)
    ensures !Less(a, a)
  {
  }

  lemma LessAsymmetric(a: MachineId, b: MachineId)
    ensures Less(a, b) ==> !Less(b, a)
  {
  }

  lemma LessTransitive(a: MachineId, b: MachineId, c: MachineId)
    requires Less(a, b) && Less(b, c)
    ensures Less(a, c)
  {
  }

  /** Exactly one of `a < b`, `a == b`, `b < a` holds; in particular two ids
      neither of which is less than the other are equal, which is the
      equivalence `std::map` derives from its key order. */
  lemma Trichotomy(a: MachineId, b: MachineId)
    ensures Less(a, b) || Equal(a, b) || Less(b, a)
    ensures !(Less(a, b) && Equal(a, b))
    ensures !(Less(b, a) && Equal(a, b))
    ensures !(Less(a, b) && Less(b, a))
    ensures !Less(a, b) && !Less(b, a) <==> Equal(a, b)
  {
    RankInjective(a, b);
  }

  ghost predicate IsStrictTotalOrder(lt: (MachineId, MachineId) -> bool) {
    && (forall a :: !lt(a, a))
    && (forall a, b, c :: lt(a, b) && lt(b, c) ==> lt(a, c))
    && (forall a, b :: a != b ==> lt(a, b) || lt(b, a))
  }

  /** `operator<` is a valid key order for the driver's `std::map` of ids. */
  lemma LessIsStrictTotalOrder()
    ensures IsStrictTotalOrder(Less)
  {
    forall a, b | a != b
      ensures Less(a, b) || Less(b, a)
    {
      Trichotomy(a, b);
    }
  }

  /** Ids of different roles compare by declaration order, whatever their indices. */
  lemma DifferentTypesCompareByDeclarationOrder(a: MachineId, b: MachineId)
    requires a.kind != b.kind
    ensures Less(a, b) <==> Ordinal(a.kind) < Ordinal(b.kind)
  {
    OrdinalInjective(a.kind, b.kind);
  }

  /** Ids of the same role compare by index alone. */
  lemma SameTypeComparesByIndex(a: MachineId, b: MachineId)
    requires a.kind == b.kind
    ensures Less(a, b) <==> a.index < b.index
  {
  }

  lemma OrderExamples()
    ensures Less(MachineId(Storage, 5), MachineId(Worker, 0))
    ensures !Less(MachineId(Worker, 0), MachineId(Storage, 5))
    ensures Less(MachineId(Worker, 3), MachineId(Worker, 4))
    ensures !Less(MachineId(Worker, 4), MachineId(Worker, 3))
  {
  }

  /** The lowercase name of a role, as it appears in hostnames. */
  function TypeName(t: MachineType): (name: string)
    ensures |name| > 0
    ensures forall i :: 0 <= i < |name| ==> 'a' <= name[i] <= 'z'
  {
    match t
    case Storage => "storage"
    case Worker => "worker"
    case Coordinator => "coordinator"
    case Frontend => "frontend"
    case Mongo => "mongo"
    case Gateway => "gateway"
  }

  /** The role whose name is exactly `name`, if any; matching is case-sensitive. */
  function TypeFromName(name: string): (r: Option<MachineType>)
    ensures r.Some? ==> TypeName(r.value) == name
    ensures r.None? ==> forall t :: TypeName(t) != name
  {
    if name == "storage" then Some(Storage)
    else if name == "worker" then Some(Worker)
    else if name == "coordinator" then Some(Coordinator)
    else if name == "frontend" then Some(Frontend)
    else if name == "mongo" then Some(Mongo)
    else if name == "gateway" then Some(Gateway)
    else None
  }

  /** `toString`: the role's lowercase name followed by the index in decimal. */
  function ToString(id: MachineId): (s: string)
    ensures |TypeName(id.kind)| < |s|
    ensures s[..|TypeName(id.kind)|] == TypeName(id.kind)
    ensures Decimal.IsCanonical(s[|TypeName(id.kind)|..])
    ensures Decimal.ToNat(s[|TypeName(id.kind)|..]) == id.index
  {
    var name := TypeName(id.kind);
    var digits := Decimal.FromNat(id.index);
    Decimal.ToNatFromNat(id.index);
    assert (name + digits)[..|name|] == name;
    assert (name + digits)[|name|..] == digits;
    name + digits
  }

  /** The string-parsing constructor: splits the string at its first digit,
      looks up the role named by the part before it and reads the rest as a
      canonical decimal index that fits in a `uint`. Every other string is refused:
      `None` stands for the constructor failing, in a way the header does not specify. */
  function Parse(s: string): (r: Option<MachineId>)
    ensures r.Some? ==> ToString(r.value) == s
  {
    var k := Decimal.NonDigitPrefix(s);
    match TypeFromName(s[..k])
    case None => None
    case Some(t) =>
      var digits := s[k..];
      if !Decimal.IsCanonical(digits) then None
      else
        var n := Decimal.ToNat(digits);
        if n < UintLimit then
          Decimal.FromNatToNat(digits);
          assert s == s[..k] + digits;
          Some(MachineId(t, n))
        else None
  }

  /** Parsing a hostname gives back the id it names. */
  lemma ParseInvertsToString(id: MachineId)
    ensures Parse(ToString(id)) == Some(id)
  {
    var s := ToString(id);
    var name := TypeName(id.kind);
    var digits := s[|name|..];
    assert s == name + digits;
    Decimal.NonDigitPrefixOfNameAndNumber(name, digits);
    assert s[..|name|] == name;
    assert TypeFromName(name) == Some(id.kind);
  }

  /** `Parse` accepts exactly the strings `ToString` produces. */
  lemma ParseExactlyInvertsToString(s: string, id: MachineId)
    ensures Parse(s) == Some(id) <==> ToString(id) == s
  {
    if ToString(id) == s {
      ParseInvertsToString(id);
    }
  }

  /** A string that is no id's hostname is refused. */
  lemma ParseRejectsNonHostnames(s: string)
    requires forall id :: ToString(id) != s
    ensures Parse(s) == None
  {
  }

  /** A string with no digit, such as a role name alone, has no index. */
  lemma ParseRejectsMissingIndex(s: string)
    requires forall i :: 0 <= i < |s| ==> !Decimal.IsDigit(s[i])
    ensures Parse(s) == None
  {
  }

  /** A string that starts with no role name (matching case-sensitively) is refused. */
  lemma ParseRejectsUnknownRole(s: string)
    requires forall t :: !(TypeName(t) <= s)
    ensures Parse(s) == None
  {
  }

  /** A string holding anything but lowercase letters and digits, such as a
      sign, a space or an uppercase letter, is refused. */
  lemma ParseRejectsForeignCharacter(s: string, j: nat)
    requires j < |s| && !('a' <= s[j] <= 'z') && !Decimal.IsDigit(s[j])
    ensures Parse(s) == None
  {
  }

  /** A digit followed later by a non-digit is refused: the index must end the string. */
  lemma ParseRejectsTrailingCharacters(s: string, i: nat, j: nat)
    requires i < j < |s| && Decimal.IsDigit(s[i]) && !Decimal.IsDigit(s[j])
    ensures Parse(s) == None
  {
  }

  /** A role name followed by a number that does not fit in a `uint` is refused. */
  lemma ParseRejectsOverflow(t: MachineType, n: nat)
    requires UintLimit <= n
    ensures Parse(TypeName(t) + Decimal.FromNat(n)) == None
  {
    var name, digits := TypeName(t), Decimal.FromNat(n);
    var s := name + digits;
    Decimal.NonDigitPrefixOfNameAndNumber(name, digits);
    assert s[..|name|] == name && s[|name|..] == digits;
    Decimal.ToNatFromNat(n);
  }

  /** Distinct ids never share a hostname. */
  lemma ToStringInjective(a: MachineId, b: MachineId)
    ensures ToString(a) == ToString(b) ==> a == b
  {
    ParseInvertsToString(a);
    ParseInvertsToString(b);
  }

  lemma ToStringExample()
    ensures ToString(MachineId(Storage, 123)) == "storage123"
  {
  }
}
