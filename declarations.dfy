/**
 * The declared model types, as the static helpers of `Tables` see them through reflection:
 * a type is its simple name, its optional `@DomainModel` annotation and its declared fields
 * in the order `getDeclaredFields()` returns them; a field is its name and its optional `@PrimaryKey` and `@Column`
 * annotations.
 */
module Declarations {
  import opened Wrappers

  /** The two attributes of `@DomainModel` that `Tables` reads. */
  datatype DomainModel = DomainModel(tableName: string, dataSource: string)

  /** `@PrimaryKey(name = ...)` on a field. */
  datatype PrimaryKey = PrimaryKey(name: string)

  /** `@Column(name = ...)` on a field. */
  datatype Column = Column(name: string)

  /** One declared field: `getName()` and its two optional annotations. */
  datatype Field = Field(name: string, primaryKey: Option<PrimaryKey>, column: Option<Column>)

  /** A declared class: `getSimpleName()`, `getAnnotation(DomainModel.class)`, `getDeclaredFields()`. */
  datatype ModelType = ModelType(simpleName: string, domainModel: Option<DomainModel>, fields: seq<Field>)

  /** The values a property or a violation can hold; `Null` is Java's `null`. */
  datatype Value = Null | Bool(b: bool) | Int(i: int) | Text(s: string)

  /** `Validator.Violation`: root bean class, message, invalid value and property path. */
  datatype Violation = Violation(modelClass: string, message: string, invalidValue: Value, propertyPath: string)

  /** The exceptions the helpers raise. */
  datatype Error =
    | NullPointer(message: string)               // Objects.requireNonNull
    | DomainModelError(message: string)          // DomainModelException
    | ReflectionError(property: string)          // PropertyUtils on a name that is not a property
    | ValidationError(violations: seq<Violation>) // ValidationException

  /** The names of the declared fields: those `getDeclaredField` can find. */
  function FieldNames(fs: seq<Field>): (names: set<string>)
    ensures forall i :: 0 <= i < |fs| ==> fs[i].name in names
    ensures forall n :: n in names ==> exists i :: 0 <= i < |fs| && fs[i].name == n
  {
    set i | 0 <= i < |fs| :: fs[i].name
  }

  /** Java never declares two fields of one class with the same name. */
  ghost predicate DistinctFieldNames(fs: seq<Field>)
  {
    forall i, j :: 0 <= i < j < |fs| ==> fs[i].name != fs[j].name
  }
}
