# Blackrock machine identities

A model of `ComputeDriver::MachineType` and `ComputeDriver::MachineId` from the
Blackrock cluster master's driver interface (`src/blackrock/master.h`). These are
the values the master and its drivers use to name machines. A machine has a role:
storage, worker, coordinator, frontend, mongo or gateway. It also has a 32-bit
unsigned index. Ids are compared by role, in declaration order, and then by index.
That order is what the reference driver uses as the key order of its
`std::map<MachineId, …>` of bootstrap addresses. Each id has a hostname such as
`storage123`, and the string-parsing constructor reads a hostname back into an id.

The project has three modules:

- `Wrappers` (`wrappers.dfy`) holds the `Option` type the parser returns.
- `Decimal` (`decimal.dfy`) holds decimal numerals with no leading zeros. It is
  used to render and read the index, and proves both round trips between numbers
  and canonical numerals.
- `ComputeDriver` (`machine_id.dfy`) holds the enumeration, the id, `operator==`,
  `operator<`, `toString` and the parser, with the order laws and the hostname
  round trip.

Modelling decisions:

- The C++ field `type` is called `kind`, because `type` is a reserved word in Dafny.
- `uint` is the subset type `Uint` of integers below 2^32.
- A comparison of enumerators uses their underlying values, which are their
  declaration positions (`Ordinal`).
- `Less` keeps the source's nested conditional.
- `Rank` is an independent reference key for the order. `Less`'s contract ties
  the two together.
- The bodies of `toString` and of the parsing constructor are not in
  `master.h`. Only their doc comments are, and the model follows those.
  `ToString` is the lowercase role name followed by the decimal index.
  `Parse` returns `Some(id)` for exactly the strings `ToString` produces, and
  `None` for every other string. `None` stands for the constructor failing; the
  header does not say how it fails. It splits the string at the first digit, looks
  up the role named by the part before it, and accepts the rest only if it is a
  canonical numeral below 2^32.
- Parsing is also expected to fail on malformed input, such as an unknown role or
  a missing or non-numeric index. The header only promises "parses results of
  toString()". The model's rejection lemmas
  state only cases that are not outputs of `ToString`, so they agree with both.

## Model

| member | source | states |
|---|---|---|
| `ComputeDriver.Ordinal` | src/blackrock/master.h:35-42 | each of the six roles has an underlying value below 6, its declaration position |
| `ComputeDriver.OrdinalInjective` | src/blackrock/master.h:35-42 | distinct roles have distinct underlying values |
| `ComputeDriver.TypeLess` | src/blackrock/master.h:52-53 | the enumeration's `<` never holds between a role and itself |
| `ComputeDriver.Equal` | src/blackrock/master.h:48-50 | `operator==` holds exactly when the two ids are the same value, i.e. role and index both agree |
| `ComputeDriver.Rank` | src/blackrock/master.h:51-55 | the reference key of an id lies in its role's own block of 2^32 consecutive keys |
| `ComputeDriver.RankInjective` | src/blackrock/master.h:44-47 | distinct ids have distinct reference keys |
| `ComputeDriver.Less` | src/blackrock/master.h:51-55 | `operator<` (role first, then index) holds exactly when the first id's reference key is smaller |
| `ComputeDriver.LessIrreflexive` | src/blackrock/master.h:51-55 | no id is less than itself |
| `ComputeDriver.LessAsymmetric` | src/blackrock/master.h:51-55 | `a < b` and `b < a` never both hold |
| `ComputeDriver.LessTransitive` | src/blackrock/master.h:51-55 | `a < b` and `b < c` give `a < c` |
| `ComputeDriver.Trichotomy` | src/blackrock/master.h:48-55 | exactly one of `a < b`, `a == b`, `b < a` holds, so ids that are not less than each other are equal |
| `ComputeDriver.LessIsStrictTotalOrder` | src/blackrock/master.h:51-55 | `operator<` is irreflexive, transitive and connected, so it is a valid key order for the driver's address map (line 113) |
| `ComputeDriver.DifferentTypesCompareByDeclarationOrder` | src/blackrock/master.h:52-53 | ids of different roles compare by the roles' declaration order, whatever their indices |
| `ComputeDriver.SameTypeComparesByIndex` | src/blackrock/master.h:54 | ids of the same role compare by index alone |
| `ComputeDriver.OrderExamples` | src/blackrock/master.h:51-55 | `{STORAGE,5} < {WORKER,0}` and `{WORKER,3} < {WORKER,4}`, and neither converse holds |
| `ComputeDriver.TypeName` | src/blackrock/master.h:57-58 | a role's hostname prefix is a non-empty run of lowercase letters |
| `ComputeDriver.TypeFromName` | src/blackrock/master.h:62-63 | a name is mapped to the role whose name it is, and a name no role has is refused |
| `ComputeDriver.ToString` | src/blackrock/master.h:57-58 | the hostname is the role's lowercase name followed by a canonical decimal numeral whose value is the index |
| `ComputeDriver.ToStringExample` | src/blackrock/master.h:58 | `{STORAGE,123}` becomes `"storage123"` |
| `ComputeDriver.Parse` | src/blackrock/master.h:62-63 | every id the parser returns has the parsed string as its hostname |
| `ComputeDriver.ParseInvertsToString` | src/blackrock/master.h:57-63 | parsing the hostname of an id gives that id back |
| `ComputeDriver.ParseExactlyInvertsToString` | src/blackrock/master.h:57-63 | the parser returns `id` exactly when the string is `id`'s hostname |
| `ComputeDriver.ToStringInjective` | src/blackrock/master.h:57-63 | distinct ids never share a hostname |
| `ComputeDriver.ParseRejectsNonHostnames` | src/blackrock/master.h:62-63 | a string that is no id's hostname is refused |
| `ComputeDriver.ParseRejectsMissingIndex` | src/blackrock/master.h:62-63 | a string with no digit, such as a bare role name, is refused |
| `ComputeDriver.ParseRejectsUnknownRole` | src/blackrock/master.h:62-63 | a string that starts with no role name, compared case-sensitively, is refused |
| `ComputeDriver.ParseRejectsForeignCharacter` | src/blackrock/master.h:62-63 | a string holding a character other than a lowercase letter or a digit, such as a sign, is refused |
| `ComputeDriver.ParseRejectsTrailingCharacters` | src/blackrock/master.h:62-63 | a string with a non-digit after a digit is refused |
| `ComputeDriver.ParseRejectsOverflow` | src/blackrock/master.h:46 | a role name followed by a number of 2^32 or more is refused, since the index is a `uint` |
| `Decimal.FromNat` | src/blackrock/master.h:57-58 | a number renders as a canonical numeral, which starts with '0' exactly for zero |
| `Decimal.ToNat` | src/blackrock/master.h:62-63 | a digit string with a non-zero leading digit has a positive value |
| `Decimal.NonDigitPrefix` | src/blackrock/master.h:62-63 | the split point is the first digit of the string, or its end when it has none |
| `Decimal.NonDigitPrefixOfNameAndNumber` | src/blackrock/master.h:57-63 | a role name followed by a numeral splits exactly at the end of the name |
| `Decimal.ToNatFromNat` | src/blackrock/master.h:57-63 | reading back a rendered number gives the number |
| `Decimal.FromNatToNat` | src/blackrock/master.h:57-63 | rendering the value of a canonical numeral gives back the same numeral |
| `Decimal.FromNatInjective` | src/blackrock/master.h:57-58 | distinct numbers render differently |

## Left out

- `ComputeDriver.Parse`: the parser's body is not in `master.h`. Whether the real
  parser accepts non-canonical spellings such as `storage007` is unknown, so the
  model refuses them, since they are not outputs of `toString`. No lemma claims
  how the real parser treats such strings.
- The default constructor `MachineId() = default` (line 60) is left out.
  Default-initialisation leaves the fields indeterminate, which Dafny values
  cannot express. Value-initialisation gives `{STORAGE, 0}`, which is
  `MachineId(Storage, 0)` here. The two-argument
  constructor (line 61) is the datatype constructor `MachineId(kind, index)`.
- `MachineStatus` (lines 66-71) is left out. It only states a lifetime rule for an
  opaque RPC address, and nothing in the header enforces that rule.
- The driver operations `getMasterBindAddress`, `listMachines`, `boot`, `run` and
  `stop` (lines 73-92) are left out. They are abstract asynchronous operations
  with no bodies in the header.
- `runMaster` (lines 95-96) is left out. It is only a declaration.
- `VagrantDriver` (lines 98-121) is left out. It is backed by subprocesses,
  asynchronous I/O, a promise-chain boot queue and network log collection, and
  its method bodies are not part of this model.
- `VatPath`, `VatId`, `SimpleAddress` and `MasterConfig` are left out. They are
  RPC and configuration types that the core passes through opaquely.
