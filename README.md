# ObjectiveSql `Tables`: metadata resolution and validation aggregation

A Dafny model of the static helpers in ObjectiveSql's `Tables` class. They derive
table-level facts from a declared domain-model class:

- the table name (a `@DomainModel(tableName)` override, else the tableized simple name);
- the datasource name;
- the primary key, looked up in two different ways (`getPrimaryKey` and `getPrimaryField`);
- the primary value of an object, read and written through its `@PrimaryKey`;
- the column name of a field (a `@Column(name)` override, else the underscored field name).

The class also holds the process-wide validator. It aggregates the violations of one bean
or of many beans, and it either returns them or raises a `ValidationException`. Its last
two helpers read the scalar result of a `COUNT(*)` query and build the default
foreign-key name `name_id`.

Files:

- `wrappers.dfy`: `Option` (Java `null`), `Result` (a return value or a thrown exception)
  and `Outcome` (a `void` method that returns or throws).
- `declarations.dfy`: the reflective view of a class. A `ModelType` has a simple name, an
  optional `DomainModel` annotation and its declared `Field`s, in the order
  `getDeclaredFields()` returns them. A
  `Field` has its name and an optional `PrimaryKey` and `Column` annotation. The file also
  holds property values, `Violation` and the exceptions.
- `tables.dfy`: module `Tables`.
  - The pure conditionals are functions.
  - The two field scans and the violation-collecting loop are methods with loop
    invariants. Each is proved equal to a recursive specification function, and lemmas
    state what those functions mean.
  - Domain objects are a class, `DomainObject`, whose property map is updated in place.
  - The static validator field is a class, `ValidatorHolder`, with install/get.

Helpers whose code is not part of this model are parameters of the members that use them:
`WordUtil.tableize`, `WordUtil.underscore`, `StringUtil.isBlank`,
`ConnectionFactory.DEFAULT_DATA_SOURCE_NAME`, and the default Bean Validation adapter
(a constructor parameter of `ValidatorHolder`). So every property proved here holds for
any implementation of these helpers.

Where the documented intent of the library and its code disagree, the model follows the code:

- The datasource name is meant to default "unless overridden", but the code's guard
  tests the table-name attribute (see Findings).
- The intended invariant is one primary-key field per type. The code does not enforce it:
  with two annotated fields, `getPrimaryKey` takes the first one in the `getDeclaredFields()`
  array and `getPrimaryField` takes the last one. `FirstKeyLastField` exhibits the difference.

## Model

| member | source | states |
|---|---|---|
| `Tables.TableName` | core/src/main/java/com/github/braisdom/objsql/Tables.java:53-66 | Fails with the "must have the DomainModel annotation" null-pointer error iff the annotation is absent. Otherwise it returns the annotation's table name when that is not blank, and the tableized simple name when it is blank. |
| `Tables.NamesFailTogether` | core/src/main/java/com/github/braisdom/objsql/Tables.java:53-81 | The table name and the datasource name fail on exactly the same types, with the same error. |
| `Tables.TableNameOverrideWins` | core/src/main/java/com/github/braisdom/objsql/Tables.java:60-61 | A non-blank table-name override is the result whatever the simple name and the fields are. |
| `Tables.TableNameDefaultFromSimpleName` | core/src/main/java/com/github/braisdom/objsql/Tables.java:62-63 | Without an override, two types with the same simple name get the same table name, `tableize(simpleName)`. |
| `Tables.DataSourceName` | core/src/main/java/com/github/braisdom/objsql/Tables.java:68-81 | As written: fails iff the annotation is absent. It returns the `dataSource` attribute exactly when the TABLE name is not blank, and the default datasource name otherwise. |
| `Tables.IntendedDataSourceName` | core/src/main/java/com/github/braisdom/objsql/Tables.java:74-78 | Corrected rule: the `dataSource` attribute when it is not blank, else the default name, regardless of the table name. |
| `Tables.DataSourceRulesAgreement` | core/src/main/java/com/github/braisdom/objsql/Tables.java:75-78 | The written and the intended rule agree iff the two attributes are blank or non-blank together, or the `dataSource` attribute equals the default name. |
| `Tables.DataSourceOverrideIgnored` | core/src/main/java/com/github/braisdom/objsql/Tables.java:75-78 | Two concrete annotations on which the written rule departs from the intended one. A `dataSource` override without a table name is ignored. A table name without a `dataSource` yields `""`. |
| `Tables.FirstPrimaryKey` | core/src/main/java/com/github/braisdom/objsql/Tables.java:83-92 | None iff no field is annotated. Otherwise it is the annotation of an annotated field with no annotated field before it. |
| `Declarations.FieldNames` | core/src/main/java/com/github/braisdom/objsql/Tables.java:84 | Exactly the names of the declared fields: every field's name is in it, and every name in it belongs to some field. |
| `Tables.IsPrimaryField` | core/src/main/java/com/github/braisdom/objsql/Tables.java:94-99 | True iff the field carries `@PrimaryKey` or is named `DEFAULT_PRIMARY_KEY` (`id`). |
| `Tables.GetPrimaryKey` | core/src/main/java/com/github/braisdom/objsql/Tables.java:83-92 | The scan with early return yields the annotation of the first annotated field, or null. |
| `Tables.LastWhere` | core/src/main/java/com/github/braisdom/objsql/Tables.java:120-127 | None iff no field satisfies the test. Otherwise it is a satisfying field with no satisfying field after it: the value an "overwrite on match" scan leaves behind. |
| `Tables.PrimaryFieldOf` | core/src/main/java/com/github/braisdom/objsql/Tables.java:129 | The value `getPrimaryField` returns. It is null iff no field satisfies `isPrimaryField`. Any field it returns is a declared field that satisfies `isPrimaryField`. When some field is annotated, it returns an annotated field. |
| `Tables.GetPrimaryField` | core/src/main/java/com/github/braisdom/objsql/Tables.java:114-130 | The loop that overwrites `primaryField`/`defaultField` returns the last annotated field if there is one, else the last field named `id`, else null. |
| `Tables.PrimaryFieldOutcomes` | core/src/main/java/com/github/braisdom/objsql/Tables.java:94-130 | Three outcomes. (1) If any field is annotated, the result is the last annotated field. (2) Otherwise it is the last field named `id`. (3) It is null iff no field satisfies `isPrimaryField`. Any field it returns is a declared field that satisfies `isPrimaryField`. |
| `Tables.PrimaryFieldAgreesWithKeyWhenUnique` | core/src/main/java/com/github/braisdom/objsql/Tables.java:83-130 | When exactly one field is annotated, `getPrimaryField` returns that field and `getPrimaryKey` returns its annotation. |
| `Tables.FirstAnnotatedKey` | core/src/main/java/com/github/braisdom/objsql/Tables.java:85-91 | If field `i` is annotated and no earlier field is, `getPrimaryKey` yields field `i`'s annotation. |
| `Tables.LastAnnotatedField` | core/src/main/java/com/github/braisdom/objsql/Tables.java:120-127 | If field `j` is annotated and no later field is, the overwrite loop leaves field `j` as `primaryField`. |
| `Tables.FirstKeyLastField` | core/src/main/java/com/github/braisdom/objsql/Tables.java:83-130 | In any field list, with `i` the first annotated field and `j > i` the last one, `getPrimaryKey` yields the annotation of field `i` and `getPrimaryField` yields field `j`. |
| `Tables.ReadDirectly` | core/src/main/java/com/github/braisdom/objsql/Tables.java:104 | Reading a property succeeds iff the name is a property, and yields its value; otherwise it raises a reflection error naming it. |
| `Tables.WriteDirectly` | core/src/main/java/com/github/braisdom/objsql/Tables.java:111 | Writing a property succeeds iff the name is a property. It sets that property alone and keeps the set of properties. |
| `Tables.DomainObject.constructor` | core/src/main/java/com/github/braisdom/objsql/Tables.java:101-112 | The object that `getPrimaryValue` and `writePrimaryValue` act on: its runtime class and exactly its declared properties. |
| `Tables.PrimaryValueOf` | core/src/main/java/com/github/braisdom/objsql/Tables.java:102-105 | Null without a `@PrimaryKey`. Otherwise it is the value of the property the first key names, and it fails with a reflection error naming it iff there is no such property. |
| `Tables.WithPrimaryValue` | core/src/main/java/com/github/braisdom/objsql/Tables.java:109-111 | The properties unchanged without a `@PrimaryKey`. Otherwise the property the first key names is set to the new value, and it fails with a reflection error iff there is no such property. |
| `Tables.GetPrimaryValue` | core/src/main/java/com/github/braisdom/objsql/Tables.java:101-106 | Reads the property named by the first `@PrimaryKey`, or returns null when there is none. On a valid object, it fails iff that key names no declared field. |
| `Tables.WritePrimaryValue` | core/src/main/java/com/github/braisdom/objsql/Tables.java:108-112 | Sets the property named by the first `@PrimaryKey`. It changes nothing when there is no such annotation, and changes nothing when the write raises. It raises iff that key names no declared field. The object keeps exactly its declared properties. |
| `Tables.NoPrimaryKeyNoValue` | core/src/main/java/com/github/braisdom/objsql/Tables.java:101-112 | Without any `@PrimaryKey`, the primary value is null and writing it leaves the properties as they were. |
| `Tables.PrimaryValueNeedsDeclaredName` | core/src/main/java/com/github/braisdom/objsql/Tables.java:101-112 | On an object that has exactly its declared properties, reading the primary value fails iff the first `@PrimaryKey` names no declared field. Writing fails in exactly the same cases. |
| `Tables.ReadAfterWrite` | core/src/main/java/com/github/braisdom/objsql/Tables.java:101-112 | After a successful write, the primary value reads back as the written value (null without a key), and every other property is unchanged. |
| `Tables.WriteBackUnchanged` | core/src/main/java/com/github/braisdom/objsql/Tables.java:101-112 | Writing back the primary value just read leaves the properties unchanged. |
| `Tables.FindField` | core/src/main/java/com/github/braisdom/objsql/Tables.java:134 | None iff no declared field has the name; otherwise a declared field with that name. |
| `Tables.ColumnName` | core/src/main/java/com/github/braisdom/objsql/Tables.java:132-143 | Fails with a domain-model error carrying the field name iff no declared field has that name. Otherwise it returns that field's `@Column` name, or the underscored field name when it has none. |
| `Tables.FindDeclaredField` | core/src/main/java/com/github/braisdom/objsql/Tables.java:134 | With distinct field names, looking up a declared field's name finds that very field. |
| `Tables.ColumnNameOfDeclaredField` | core/src/main/java/com/github/braisdom/objsql/Tables.java:132-143 | With distinct field names, each declared field's column is its own `@Column` name, or its underscored name when it has none. |
| `Tables.ValidationOutcome` | core/src/main/java/com/github/braisdom/objsql/Tables.java:160-163 | Raises iff the list is non-empty and not suppressed, always as a validation error. Whether returned or raised, the carried list is the full list. |
| `Tables.Discard` | core/src/main/java/com/github/braisdom/objsql/Tables.java:153-155 | A `void` overload fails iff the underlying call raises, with the same error. |
| `Tables.AllViolations` | core/src/main/java/com/github/braisdom/objsql/Tables.java:172-177 | The list the loop builds, the beans' violations concatenated in bean order. No beans give no violations, and one bean gives exactly its own list. |
| `Tables.AllViolationsAppend` | core/src/main/java/com/github/braisdom/objsql/Tables.java:172-177 | Aggregating the concatenation of two bean arrays gives the concatenated aggregates, in bean order. |
| `Tables.AllViolationsMembership` | core/src/main/java/com/github/braisdom/objsql/Tables.java:172-177 | A violation is in the aggregate iff some bean has it. |
| `Tables.AllViolationsEmpty` | core/src/main/java/com/github/braisdom/objsql/Tables.java:172-178 | The aggregate is empty iff every bean is valid. |
| `Tables.SingleBeanIsOneElementArray` | core/src/main/java/com/github/braisdom/objsql/Tables.java:157-182 | Given the same flag, the single-bean overload and the array overload on `[bean]` return or raise the same thing. |
| `Tables.DefaultFlagsDisagree` | core/src/main/java/com/github/braisdom/objsql/Tables.java:153-168 | With their defaults, `validate(bean)` returns normally on an invalid bean, while `validate(new Object[]{bean})` raises with all of its violations. |
| `Tables.ValidatorHolder.constructor` | core/src/main/java/com/github/braisdom/objsql/Tables.java:43-51 | The static field starts as the default validator. |
| `Tables.ValidatorHolder.GetValidator` | core/src/main/java/com/github/braisdom/objsql/Tables.java:145-147 | Returns the installed validator. |
| `Tables.ValidatorHolder.InstallValidator` | core/src/main/java/com/github/braisdom/objsql/Tables.java:149-151 | After installation, the installed validator is the one every overload consults. |
| `Tables.ValidatorHolder.ValidateBean` | core/src/main/java/com/github/braisdom/objsql/Tables.java:157-164 | Raises with the bean's violations iff there are some and the flag is false. Otherwise it returns them. |
| `Tables.ValidatorHolder.ValidateBeanDefault` | core/src/main/java/com/github/braisdom/objsql/Tables.java:153-155 | As written: the single-bean call with suppress = true, which never raises. |
| `Tables.ValidatorHolder.ValidateBeanIntended` | core/src/main/java/com/github/braisdom/objsql/Tables.java:153-155 | Corrected overload: raises iff the bean has violations, carrying all of them, exactly as the array overload does on `[bean]`. |
| `Tables.ValidatorHolder.ValidateBeans` | core/src/main/java/com/github/braisdom/objsql/Tables.java:170-182 | The collecting loop returns, or raises with, the concatenation of every bean's violations in bean order. It raises iff that list is non-empty and the flag is false. |
| `Tables.ValidatorHolder.ValidateBeansDefault` | core/src/main/java/com/github/braisdom/objsql/Tables.java:166-168 | Suppress = false: raises iff some bean has a violation, carrying the full aggregate. |
| `Tables.CountOf` | core/src/main/java/com/github/braisdom/objsql/Tables.java:213-216 | 0 when there are no rows. The first row's `_count` value when it is present and not null. Any non-zero result is that value. |
| `Tables.CountReadsFirstRowOnly` | core/src/main/java/com/github/braisdom/objsql/Tables.java:213-216 | Rows after the first never affect the count. |
| `Tables.EncodeDefaultKey` | core/src/main/java/com/github/braisdom/objsql/Tables.java:219-221 | The key is the name followed by `_` and `DEFAULT_KEY_SUFFIX` (`id`). |
| `Tables.EncodeDefaultKeyInjective` | core/src/main/java/com/github/braisdom/objsql/Tables.java:219-221 | Distinct names give distinct keys. Dropping the suffix gives back the name. |

## Left out

- `query` and `execute`, and the statement execution inside `count`: they go through `Databases` and a SQL executor, which are not part of this model. `count` is modelled from its result rows onward (`CountOf`).
- The default validator built on `javax.validation`: a foreign library. It is the constructor parameter of `ValidatorHolder`, and a validator is any function from a bean to its violations.
- `WordUtil.tableize`, `WordUtil.underscore`, `StringUtil.isBlank` and `ConnectionFactory.DEFAULT_DATA_SOURCE_NAME`: their code is not part of this model, so they are parameters.
- `PropertyUtils.readDirectly`, `writeDirectly` and `getRawAttribute`: their code is not part of this model. An object is a name-to-value map. Reading or writing a name that is not a property is modelled as a reflection error. A raw attribute that is absent is modelled as null.
- Java `null` arguments (a null class, object, bean array or name): datatypes have no null, so the `requireNonNull(baseClass)` checks and the resulting `NullPointerException`s are not modelled.
- Field order: `Class.getDeclaredFields()` promises no particular order. The model takes the order it returns as given, so "first" and "last" annotated field are relative to that array, not to source declaration order.
- Reflection as such: access modifiers, inherited fields and annotation retention are not modelled. A class is its declared field list.
- The unsynchronised static `validator` field: its cross-thread visibility is not modelled. It is a single-threaded field with install and get.
- `CountOf`: does not model the `(int)` cast of an arbitrary object. A `_count` value is a 32-bit integer or null, because a failing cast is a runtime typing error.
- `Value` and `Violation`: a property value is one of null, boolean, integer or text, and a violation's root bean class is its name. Other Java values are not modelled.

## Findings

| source | as written | input that shows it | evidently intended | confidence | as-written member | corrected member |
|---|---|---|---|---|---|---|
| core/src/main/java/com/github/braisdom/objsql/Tables.java:75 | the datasource guard tests `domainModel.tableName()` | `@DomainModel(dataSource = "reporting")` with a blank table name yields the default datasource; `@DomainModel(tableName = "members")` with a blank `dataSource` yields `""` | test `domainModel.dataSource()`: the override is used whenever it is not blank | likely; not executed | `Tables.DataSourceName`, `Tables.DataSourceOverrideIgnored` | `Tables.IntendedDataSourceName`, `Tables.DataSourceRulesAgreement` |
| core/src/main/java/com/github/braisdom/objsql/Tables.java:154 | `validate(Object bean)` passes `suppressException = true` and returns `void` | a bean with one violation: `validate(bean)` returns normally and the violation is lost, while `validate(new Object[]{bean})` raises | pass `false`, as `validate(Object[] beans)` does, so that violations raise | medium; not executed | `Tables.ValidatorHolder.ValidateBeanDefault`, `Tables.DefaultFlagsDisagree` | `Tables.ValidatorHolder.ValidateBeanIntended`, `Tables.SingleBeanIsOneElementArray` |
