/**
 * The operators controller. Unlike the operator service it validates a
 * create (both names required; EmployeeId and Email must not already be in
 * use, LicenseNumber is not looked at), its update requires both names but
 * checks no duplicates, and its list holds only active operators ordered by
 * last name, then first name.
 */
module OperatorsController {
  import opened Wrappers
  import opened Text
  import opened Entities
  import opened Queries
  import opened Store
  import OS = OperatorService

  datatype OperatorsError =
    | IdMismatch
    | OperatorNotFound(id: int)
    | FirstNameRequired
    | LastNameRequired
    | DuplicateEmployeeId
    | DuplicateEmail

  function Message(e: OperatorsError): string {
    match e
    case IdMismatch => "El ID del operador no coincide"
    case OperatorNotFound(id) => "Operador con ID " + IntToString(id) + " no encontrado"
    case FirstNameRequired => "El nombre es requerido"
    case LastNameRequired => "El apellido es requerido"
    case DuplicateEmployeeId => "Ya existe un operador con este ID de empleado"
    case DuplicateEmail => "Ya existe un operador con este email"
  }

  // ------------------------------------------------------------ list

  /** `OrderBy(LastName).ThenBy(FirstName)`: `a` may come before `b`. */
  predicate LastThenFirst(a: Operator, b: Operator) {
    ThenByLe(a.lastName, a.firstName, b.lastName, b.firstName)
  }

  lemma LastThenFirstIsOrder()
    ensures Total(LastThenFirst) && Transitive(LastThenFirst)
  {
    forall a: Operator, b: Operator ensures LastThenFirst(a, b) || LastThenFirst(b, a) {
      ThenByLeTotal(a.lastName, a.firstName, b.lastName, b.firstName);
    }
    forall a: Operator, b: Operator, c: Operator | LastThenFirst(a, b) && LastThenFirst(b, c)
      ensures LastThenFirst(a, c)
    {
      ThenByLeTransitive(a.lastName, a.firstName, b.lastName, b.firstName, c.lastName, c.firstName);
    }
  }

  /** The active operators, by last name and then first name. */
  function GetOperators(operators: map<int, Operator>): (r: seq<Operator>)
    ensures forall x :: x in r <==> x in operators.Values && x.status == OperatorActive
    ensures forall x :: multiset(r)[x] == if x.status == OperatorActive then |KeysHolding(operators, x)| else 0
    ensures forall i, j :: 0 <= i < j < |r| ==>
      StrLe(r[i].lastName, r[j].lastName) && (r[i].lastName == r[j].lastName ==> StrLe(r[i].firstName, r[j].firstName))
  {
    var active := (o: Operator) => o.status == OperatorActive;
    LastThenFirstIsOrder();
    ScanFilterSort(operators, active, LastThenFirst);
    SortedPairwise(SortBy(Filter(Rows(operators), active), LastThenFirst), LastThenFirst);
    SortBy(Filter(Rows(operators), active), LastThenFirst)
  }

  /** `a` sits at a smaller position of `s` than `b`, wherever either occurs. */
  predicate Precedes(s: seq<Operator>, a: Operator, b: Operator) {
    forall i, j :: 0 <= i < |s| && 0 <= j < |s| && s[i] == a && s[j] == b ==> i < j
  }

  /**
   * Two active operators whose first names and last names are ordered in opposite
   * directions come out in opposite orders from the service's list and this one.
   */
  lemma ListOrdersDiffer(operators: map<int, Operator>, a: Operator, b: Operator)
    requires a in operators.Values && b in operators.Values
    requires a.status == OperatorActive && b.status == OperatorActive
    requires StrLt(a.firstName, b.firstName) && StrLt(b.lastName, a.lastName)
    ensures Precedes(OS.GetActiveOperators(operators), a, b)
    ensures Precedes(GetOperators(operators), b, a)
  {
    var s := OS.GetActiveOperators(operators);
    PrecedesByFirstName(s, a, b);
    var c := GetOperators(operators);
    PrecedesByLastName(c, b, a);
  }

  lemma PrecedesByFirstName(s: seq<Operator>, a: Operator, b: Operator)
    requires forall i, j :: 0 <= i < j < |s| ==> StrLe(s[i].firstName, s[j].firstName)
    requires StrLt(a.firstName, b.firstName)
    ensures Precedes(s, a, b)
  {
    forall i, j | 0 <= i < |s| && 0 <= j < |s| && s[i] == a && s[j] == b ensures i < j {
      if j < i {
        assert StrLe(b.firstName, a.firstName);
        StrLeAntisymmetric(a.firstName, b.firstName);
      }
    }
  }

  lemma PrecedesByLastName(s: seq<Operator>, a: Operator, b: Operator)
    requires forall i, j :: 0 <= i < j < |s| ==> StrLe(s[i].lastName, s[j].lastName)
    requires StrLt(a.lastName, b.lastName)
    ensures Precedes(s, a, b)
  {
    forall i, j | 0 <= i < |s| && 0 <= j < |s| && s[i] == a && s[j] == b ensures i < j {
      if j < i {
        assert StrLe(b.lastName, a.lastName);
        StrLeAntisymmetric(a.lastName, b.lastName);
      }
    }
  }

  /** Such a pair exists: "Ana Zamora" and "Beto Yáñez". */
  lemma OppositeOrderWitness()
    ensures StrLt("Ana", "Beto") && StrLt("Yáñez", "Zamora")
  {
  }

  // ------------------------------------------------------------ create

  /** Some stored operator has exactly this EmployeeId. */
  function EmployeeIdInUse(operators: map<int, Operator>, employeeId: string): (r: bool)
    ensures r <==> exists k :: k in operators && operators[k].employeeId == Some(employeeId)
  {
    AnyRow(operators, (o: Operator) => o.employeeId == Some(employeeId))
  }

  /** Some stored operator has exactly this Email. */
  function EmailInUse(operators: map<int, Operator>, email: string): (r: bool)
    ensures r <==> exists k :: k in operators && operators[k].email == Some(email)
  {
    AnyRow(operators, (o: Operator) => o.email == Some(email))
  }

  /** Why a create is refused, in the source's order: first name, last name, EmployeeId, Email. */
  function CreateRejection(operators: map<int, Operator>, o: Operator): Option<OperatorsError> {
    if IsNullOrWhiteSpace(Some(o.firstName)) then Some(FirstNameRequired)
    else if IsNullOrWhiteSpace(Some(o.lastName)) then Some(LastNameRequired)
    else if !IsNullOrEmpty(o.employeeId) && EmployeeIdInUse(operators, o.employeeId.value) then Some(DuplicateEmployeeId)
    else if !IsNullOrEmpty(o.email) && EmailInUse(operators, o.email.value) then Some(DuplicateEmail)
    else None
  }

  method CreateOperator(db: Database, o: Operator, now: Time) returns (r: Result<Operator, OperatorsError>)
    requires db.Valid()
    modifies db
    ensures db.Valid()
    ensures db.trips == old(db.trips) && db.places == old(db.places)
    ensures db.nextTripId == old(db.nextTripId) && db.nextPlaceId == old(db.nextPlaceId)
    ensures var rejection := CreateRejection(old(db.operators), o);
      if rejection.Some? then
        r == Failure(rejection.value) && db.operators == old(db.operators) && db.nextOperatorId == old(db.nextOperatorId)
      else
        var id := old(db.nextOperatorId);
        && r == Success(OS.StampedOperator(o, id, now))
        && db.operators == old(db.operators)[id := r.value]
        && db.nextOperatorId == id + 1
  {
    if IsNullOrWhiteSpace(Some(o.firstName)) {
      return Failure(FirstNameRequired);
    }
    if IsNullOrWhiteSpace(Some(o.lastName)) {
      return Failure(LastNameRequired);
    }
    if !IsNullOrEmpty(o.employeeId) {
      var existingByEmployeeId := EmployeeIdInUse(db.operators, o.employeeId.value);
      if existingByEmployeeId {
        return Failure(DuplicateEmployeeId);
      }
    }
    if !IsNullOrEmpty(o.email) {
      var existingByEmail := EmailInUse(db.operators, o.email.value);
      if existingByEmail {
        return Failure(DuplicateEmail);
      }
    }
    var stored := o.(createdAt := now, modifiedAt := now);
    stored := stored.(id := db.nextOperatorId);
    db.operators := db.operators[stored.id := stored];
    db.nextOperatorId := db.nextOperatorId + 1;
    r := Success(stored);
  }

  /** No two operators share a non-empty EmployeeId, and no two share a non-empty Email. */
  predicate UniqueOperatorKeys(operators: map<int, Operator>) {
    && (forall a, b :: a in operators && b in operators && a != b && !IsNullOrEmpty(operators[a].employeeId)
          ==> operators[a].employeeId != operators[b].employeeId)
    && (forall a, b :: a in operators && b in operators && a != b && !IsNullOrEmpty(operators[a].email)
          ==> operators[a].email != operators[b].email)
  }

  /** An accepted create keeps EmployeeIds and Emails unique. */
  lemma CreatePreservesUniqueKeys(operators: map<int, Operator>, next: int, o: Operator, now: Time)
    requires OperatorsKeyed(operators, next) && UniqueOperatorKeys(operators)
    requires CreateRejection(operators, o) == None
    ensures UniqueOperatorKeys(operators[next := OS.StampedOperator(o, next, now)])
  {
    var after := operators[next := OS.StampedOperator(o, next, now)];
    forall a, b | a in after && b in after && a != b && !IsNullOrEmpty(after[a].employeeId)
      ensures after[a].employeeId != after[b].employeeId
    {
      if a == next {
        assert b in operators;
      } else if b == next {
        assert a in operators;
      }
    }
    forall a, b | a in after && b in after && a != b && !IsNullOrEmpty(after[a].email)
      ensures after[a].email != after[b].email
    {
      if a == next {
        assert b in operators;
      } else if b == next {
        assert a in operators;
      }
    }
  }

  /** The license number plays no part in the decision: a create may repeat another operator's. */
  lemma LicenseNumberNotChecked(operators: map<int, Operator>, o: Operator, license: Option<string>)
    ensures CreateRejection(operators, o.(licenseNumber := license)) == CreateRejection(operators, o)
  {
  }

  /** The operator service checks nothing, so it hands the database a second operator with an EmployeeId in use. */
  lemma ServiceCreateCanDuplicateEmployeeId(operators: map<int, Operator>, next: int, k: int, o: Operator, now: Time)
    requires OperatorsKeyed(operators, next) && k in operators
    requires !IsNullOrEmpty(operators[k].employeeId) && o.employeeId == operators[k].employeeId
    ensures !UniqueOperatorKeys(operators[next := OS.StampedOperator(o, next, now)])
    ensures CreateRejection(operators, o) != None
  {
    var after := operators[next := OS.StampedOperator(o, next, now)];
    assert k != next && after[k] == operators[k];
    assert after[next].employeeId == after[k].employeeId;
  }

  // ------------------------------------------------------------ update

  /** Why an update is refused, in order: id mismatch, missing operator, first name, last name. */
  function UpdateRejection(operators: map<int, Operator>, id: int, o: Operator): Option<OperatorsError> {
    if id != o.id then Some(IdMismatch)
    else if id !in operators then Some(OperatorNotFound(id))
    else if IsNullOrWhiteSpace(Some(o.firstName)) then Some(FirstNameRequired)
    else if IsNullOrWhiteSpace(Some(o.lastName)) then Some(LastNameRequired)
    else None
  }

  method UpdateOperator(db: Database, id: int, o: Operator, now: Time) returns (r: Result<Operator, OperatorsError>)
    requires db.Valid()
    modifies db
    ensures db.Valid()
    ensures db.trips == old(db.trips) && db.places == old(db.places)
    ensures db.nextTripId == old(db.nextTripId) && db.nextPlaceId == old(db.nextPlaceId)
    ensures db.nextOperatorId == old(db.nextOperatorId)
    ensures var rejection := UpdateRejection(old(db.operators), id, o);
      if rejection.Some? then
        r == Failure(rejection.value) && db.operators == old(db.operators)
      else
        && r == Success(OS.CopyOperatorFields(old(db.operators)[id], o, now))
        && db.operators == old(db.operators)[id := r.value]
  {
    if id != o.id {
      return Failure(IdMismatch);
    }
    if id !in db.operators {
      return Failure(OperatorNotFound(id));
    }
    var existing := db.operators[id];
    if IsNullOrWhiteSpace(Some(o.firstName)) {
      return Failure(FirstNameRequired);
    }
    if IsNullOrWhiteSpace(Some(o.lastName)) {
      return Failure(LastNameRequired);
    }
    existing := existing.(firstName := o.firstName);
    existing := existing.(lastName := o.lastName);
    existing := existing.(email := o.email);
    existing := existing.(phone := o.phone);
    existing := existing.(employeeId := o.employeeId);
    existing := existing.(licenseNumber := o.licenseNumber);
    existing := existing.(licenseExpiryDate := o.licenseExpiryDate);
    existing := existing.(status := o.status);
    existing := existing.(dateOfBirth := o.dateOfBirth);
    existing := existing.(hireDate := o.hireDate);
    existing := existing.(address := o.address);
    existing := existing.(emergencyContact := o.emergencyContact);
    existing := existing.(emergencyPhone := o.emergencyPhone);
    existing := existing.(modifiedAt := now);
    db.operators := db.operators[id := existing];
    r := Success(existing);
  }

  /** Update checks no duplicates: taking another operator's Email passes every check of the controller. */
  lemma UpdateCanDuplicateEmail(operators: map<int, Operator>, id: int, other: int, o: Operator, now: Time)
    requires id in operators && other in operators && id != other
    requires !IsNullOrEmpty(operators[other].email) && o.email == operators[other].email
    requires o.id == id && !Blank(o.firstName) && !Blank(o.lastName)
    ensures UpdateRejection(operators, id, o) == None
    ensures !UniqueOperatorKeys(operators[id := OS.CopyOperatorFields(operators[id], o, now)])
  {
    var after := operators[id := OS.CopyOperatorFields(operators[id], o, now)];
    assert after[other] == operators[other];
    assert after[other].email == after[id].email;
  }
}
