/**
 * The static helpers of `Tables`: table-level facts derived from a declared model type
 * (table name, datasource name, primary key and column names), reading and writing the
 * primary value of a domain object, aggregating validation results, reading the result of
 * a count query and building a default foreign-key name.
 *
 * Helpers whose code lies outside this class (`WordUtil.tableize`, `WordUtil.underscore`,
 * `StringUtil.isBlank`, `ConnectionFactory.DEFAULT_DATA_SOURCE_NAME`, the default
 * validator) are parameters of the members that use them.
 */
module Tables {
  import opened Wrappers
  import opened Declarations

  const DEFAULT_PRIMARY_KEY: string := "id"
  const DEFAULT_KEY_SUFFIX: string := "id"
  const COUNT_ALIAS: string := "_count"
  const DOMAIN_MODEL_REQUIRED: string := "The baseClass must have the DomainModel annotation"

  /** The default suppress flags of the two one-argument `validate` overloads. */
  const SINGLE_BEAN_SUPPRESS: bool := true
  const BEAN_ARRAY_SUPPRESS: bool := false

  // ---------------------------------------------------------------------------------------
  // Table and datasource names
  // ---------------------------------------------------------------------------------------

  /** `getTableName`: the annotation's table name when it is not blank, else the tableized simple name. */
  function TableName(t: ModelType, isBlank: string -> bool, tableize: string -> string): (r: Result<string, Error>)
    ensures r.Failure? <==> t.domainModel.None?
    ensures r.Failure? ==> r.error == NullPointer(DOMAIN_MODEL_REQUIRED)
    ensures r.Success? && !isBlank(t.domainModel.value.tableName) ==> r.value == t.domainModel.value.tableName
    ensures r.Success? && isBlank(t.domainModel.value.tableName) ==> r.value == tableize(t.simpleName)
  {
    match t.domainModel
    case None => Failure(NullPointer(DOMAIN_MODEL_REQUIRED))
    case Some(dm) => Success(if !isBlank(dm.tableName) then dm.tableName else tableize(t.simpleName))
  }

  /**
   * `getDataSourceName` as written: the guard tests the annotation's TABLE name, so the
   * `dataSource` attribute is used exactly when a table name override is present.
   */
  function DataSourceName(t: ModelType, isBlank: string -> bool, defaultName: string): (r: Result<string, Error>)
    ensures r.Failure? <==> t.domainModel.None?
    ensures r.Failure? ==> r.error == NullPointer(DOMAIN_MODEL_REQUIRED)
    ensures r.Success? && !isBlank(t.domainModel.value.tableName) ==> r.value == t.domainModel.value.dataSource
    ensures r.Success? && isBlank(t.domainModel.value.tableName) ==> r.value == defaultName
  {
    match t.domainModel
    case None => Failure(NullPointer(DOMAIN_MODEL_REQUIRED))
    case Some(dm) => Success(if !isBlank(dm.tableName) then dm.dataSource else defaultName)
  }

  /** The datasource rule with the guard on the `dataSource` attribute itself. */
  function IntendedDataSourceName(t: ModelType, isBlank: string -> bool, defaultName: string): (r: Result<string, Error>)
    ensures r.Failure? <==> t.domainModel.None?
    ensures r.Failure? ==> r.error == NullPointer(DOMAIN_MODEL_REQUIRED)
    ensures r.Success? && !isBlank(t.domainModel.value.dataSource) ==> r.value == t.domainModel.value.dataSource
    ensures r.Success? && isBlank(t.domainModel.value.dataSource) ==> r.value == defaultName
  {
    match t.domainModel
    case None => Failure(NullPointer(DOMAIN_MODEL_REQUIRED))
    case Some(dm) => Success(if !isBlank(dm.dataSource) then dm.dataSource else defaultName)
  }

  /** Both names are resolved from the same annotation: they fail together, with the same error. */
  lemma NamesFailTogether(t: ModelType, isBlank: string -> bool, tableize: string -> string, defaultName: string)
    ensures TableName(t, isBlank, tableize).Failure? <==> DataSourceName(t, isBlank, defaultName).Failure?
    ensures TableName(t, isBlank, tableize).Failure? ==>
              TableName(t, isBlank, tableize).error == DataSourceName(t, isBlank, defaultName).error
  {
  }

  /** A non-blank table name override does not depend on the simple name or the fields. */
  lemma TableNameOverrideWins(t: ModelType, u: ModelType, isBlank: string -> bool, tableize: string -> string)
    requires t.domainModel.Some? && t.domainModel == u.domainModel
    requires !isBlank(t.domainModel.value.tableName)
    ensures TableName(t, isBlank, tableize) == TableName(u, isBlank, tableize) == Success(t.domainModel.value.tableName)
  {
  }

  /** Without an override, the table name is a function of the simple name alone. */
  lemma TableNameDefaultFromSimpleName(t: ModelType, u: ModelType, isBlank: string -> bool, tableize: string -> string)
    requires t.domainModel.Some? && u.domainModel.Some?
    requires isBlank(t.domainModel.value.tableName) && isBlank(u.domainModel.value.tableName)
    requires t.simpleName == u.simpleName
    ensures TableName(t, isBlank, tableize) == TableName(u, isBlank, tableize) == Success(tableize(t.simpleName))
  {
  }

  /**
   * The rule as written and the intended rule agree exactly when the two attributes are
   * blank or non-blank together, or when the `dataSource` attribute is the default name.
   */
  lemma DataSourceRulesAgreement(t: ModelType, isBlank: string -> bool, defaultName: string)
    requires t.domainModel.Some?
    ensures DataSourceName(t, isBlank, defaultName) == IntendedDataSourceName(t, isBlank, defaultName) <==>
              (isBlank(t.domainModel.value.tableName) == isBlank(t.domainModel.value.dataSource)
               || t.domainModel.value.dataSource == defaultName)
  {
  }

  /**
   * Two inputs on which the rule as written departs from the intended one: a `dataSource`
   * override without a table name override is ignored, and a table name override without a
   * `dataSource` override yields the blank attribute instead of the default name.
   */
  lemma DataSourceOverrideIgnored(isBlank: string -> bool, defaultName: string)
    requires isBlank("") && !isBlank("members") && !isBlank("reporting")
    requires defaultName != "reporting" && defaultName != ""
    ensures var t := ModelType("Member", Some(DomainModel("", "reporting")), []);
            DataSourceName(t, isBlank, defaultName) == Success(defaultName) &&
            IntendedDataSourceName(t, isBlank, defaultName) == Success("reporting")
    ensures var t := ModelType("Member", Some(DomainModel("members", "")), []);
            DataSourceName(t, isBlank, defaultName) == Success("") &&
            IntendedDataSourceName(t, isBlank, defaultName) == Success(defaultName)
  {
  }

  // ---------------------------------------------------------------------------------------
  // Primary keys
  // ---------------------------------------------------------------------------------------

  predicate HasPrimaryKey(f: Field)
  {
    f.primaryKey.Some?
  }

  predicate HasDefaultName(f: Field)
  {
    f.name == DEFAULT_PRIMARY_KEY
  }

  /** `isPrimaryField`: annotated with `@PrimaryKey`, or named `DEFAULT_PRIMARY_KEY`. */
  predicate IsPrimaryField(f: Field): (r: bool)
    ensures r <==> f.primaryKey.Some? || f.name == DEFAULT_PRIMARY_KEY
  {
    HasPrimaryKey(f) || HasDefaultName(f)
  }

  /** The `@PrimaryKey` of the first annotated field, in the order the fields are listed, if any. */
  function FirstPrimaryKey(fs: seq<Field>): (r: Option<PrimaryKey>)
    ensures r.None? <==> forall i :: 0 <= i < |fs| ==> !HasPrimaryKey(fs[i])
    ensures r.Some? ==> exists i :: 0 <= i < |fs| && fs[i].primaryKey == r &&
                                    forall j :: 0 <= j < i ==> !HasPrimaryKey(fs[j])
  {
    if fs == [] then None
    else if HasPrimaryKey(fs[0]) then fs[0].primaryKey
    else
      var r := FirstPrimaryKey(fs[1..]);
      assert forall i :: 0 <= i < |fs[1..]| ==> fs[1..][i] == fs[i + 1];
      r
  }

  /** `getPrimaryKey`: scans the declared fields and returns at the first annotated one. */
  method GetPrimaryKey(t: ModelType) returns (pk: Option<PrimaryKey>)
    ensures pk == FirstPrimaryKey(t.fields)
  {
    var fields := t.fields;
    for i := 0 to |fields|
      invariant FirstPrimaryKey(fields[i..]) == FirstPrimaryKey(fields)
    {
      var primaryKey := fields[i].primaryKey;
      if primaryKey.Some? {
        return primaryKey;
      }
      assert fields[i..][1..] == fields[i + 1..];
    }
    return None;
  }

  /** The last field of `fs` that satisfies `p`, if any. */
  function LastWhere(fs: seq<Field>, p: Field -> bool): (r: Option<Field>)
    ensures r.None? <==> forall i :: 0 <= i < |fs| ==> !p(fs[i])
    ensures r.Some? ==> exists i :: 0 <= i < |fs| && fs[i] == r.value && p(fs[i]) &&
                                    forall j :: i < j < |fs| ==> !p(fs[j])
  {
    if fs == [] then None
    else if p(fs[|fs| - 1]) then Some(fs[|fs| - 1])
    else LastWhere(fs[..|fs| - 1], p)
  }

  /** What `getPrimaryField` returns: the last annotated field, else the last field named `id`. */
  function PrimaryFieldOf(fs: seq<Field>): (r: Option<Field>)
    ensures r.None? <==> forall i :: 0 <= i < |fs| ==> !IsPrimaryField(fs[i])
    ensures r.Some? ==> r.value in fs && IsPrimaryField(r.value)
    ensures (exists i :: 0 <= i < |fs| && HasPrimaryKey(fs[i])) ==> r.Some? && HasPrimaryKey(r.value)
  {
    var annotated := LastWhere(fs, HasPrimaryKey);
    if annotated.None? then LastWhere(fs, HasDefaultName) else annotated
  }

  /** `getPrimaryField`: one pass that overwrites the two candidates as it goes. */
  method GetPrimaryField(t: ModelType) returns (field: Option<Field>)
    ensures field == PrimaryFieldOf(t.fields)
  {
    var fields := t.fields;
    var defaultField: Option<Field> := None;
    var primaryField: Option<Field> := None;
    for i := 0 to |fields|
      invariant primaryField == LastWhere(fields[..i], HasPrimaryKey)
      invariant defaultField == LastWhere(fields[..i], HasDefaultName)
    {
      assert fields[..i + 1][..i] == fields[..i];
      if fields[i].primaryKey.Some? {
        primaryField := Some(fields[i]);
      }
      if fields[i].name == DEFAULT_PRIMARY_KEY {
        defaultField := Some(fields[i]);
      }
    }
    assert fields[..|fields|] == fields;
    field := if primaryField.None? then defaultField else primaryField;
  }

  /** The three outcomes of `getPrimaryField`, and that what it returns is a primary field. */
  lemma PrimaryFieldOutcomes(fs: seq<Field>)
    ensures (exists i :: 0 <= i < |fs| && HasPrimaryKey(fs[i])) ==>
              PrimaryFieldOf(fs) == LastWhere(fs, HasPrimaryKey) && HasPrimaryKey(PrimaryFieldOf(fs).value)
    ensures (forall i :: 0 <= i < |fs| ==> !HasPrimaryKey(fs[i])) ==>
              PrimaryFieldOf(fs) == LastWhere(fs, HasDefaultName)
    ensures PrimaryFieldOf(fs).None? <==> forall i :: 0 <= i < |fs| ==> !IsPrimaryField(fs[i])
    ensures PrimaryFieldOf(fs).Some? ==> PrimaryFieldOf(fs).value in fs && IsPrimaryField(PrimaryFieldOf(fs).value)
  {
  }

  /** With exactly one annotated field, `getPrimaryField` and `getPrimaryKey` agree on it. */
  lemma PrimaryFieldAgreesWithKeyWhenUnique(fs: seq<Field>, k: nat)
    requires k < |fs| && HasPrimaryKey(fs[k])
    requires forall j :: 0 <= j < |fs| && j != k ==> !HasPrimaryKey(fs[j])
    ensures PrimaryFieldOf(fs) == Some(fs[k])
    ensures FirstPrimaryKey(fs) == fs[k].primaryKey
  {
  }

  /** The lookup for the first annotated field lands on the first annotated index. */
  lemma FirstAnnotatedKey(fs: seq<Field>, i: nat)
    requires i < |fs| && HasPrimaryKey(fs[i])
    requires forall k :: 0 <= k < i ==> !HasPrimaryKey(fs[k])
    ensures FirstPrimaryKey(fs) == fs[i].primaryKey
  {
    assert FirstPrimaryKey(fs).Some?;
    var i' :| 0 <= i' < |fs| && fs[i'].primaryKey == FirstPrimaryKey(fs) &&
              forall k :: 0 <= k < i' ==> !HasPrimaryKey(fs[k]);
    assert HasPrimaryKey(fs[i']);
  }

  /** The scan for the last annotated field lands on the last annotated index. */
  lemma LastAnnotatedField(fs: seq<Field>, j: nat)
    requires j < |fs| && HasPrimaryKey(fs[j])
    requires forall k :: j < k < |fs| ==> !HasPrimaryKey(fs[k])
    ensures LastWhere(fs, HasPrimaryKey) == Some(fs[j])
  {
    var last := LastWhere(fs, HasPrimaryKey);
    var j' :| 0 <= j' < |fs| && fs[j'] == last.value && HasPrimaryKey(fs[j']) &&
              forall k :: j' < k < |fs| ==> !HasPrimaryKey(fs[k]);
    assert j' == j;
  }

  /**
   * When the first annotated field (index `i`) and the last one (index `j`) differ,
   * `getPrimaryKey` yields the annotation at `i` and `getPrimaryField` the field at `j`.
   */
  lemma FirstKeyLastField(fs: seq<Field>, i: nat, j: nat)
    requires i < j < |fs| && HasPrimaryKey(fs[i]) && HasPrimaryKey(fs[j])
    requires forall k :: 0 <= k < i ==> !HasPrimaryKey(fs[k])
    requires forall k :: j < k < |fs| ==> !HasPrimaryKey(fs[k])
    ensures FirstPrimaryKey(fs) == fs[i].primaryKey
    ensures PrimaryFieldOf(fs) == Some(fs[j])
  {
    FirstAnnotatedKey(fs, i);
    LastAnnotatedField(fs, j);
  }

  // ---------------------------------------------------------------------------------------
  // Primary values of domain objects
  // ---------------------------------------------------------------------------------------

  /** An instance of a declared model type: its runtime class and its property values. */
  class DomainObject {
    const modelType: ModelType
    var properties: map<string, Value>

    /** The object has exactly the properties its class declares. */
    ghost predicate Valid()
      reads this
    {
      properties.Keys == FieldNames(modelType.fields)
    }

    constructor (t: ModelType, values: map<string, Value>)
      requires values.Keys == FieldNames(t.fields)
      ensures Valid() && modelType == t && properties == values
    {
      modelType := t;
      properties := values;
    }
  }

  /** `PropertyUtils.readDirectly` on a property map. */
  function ReadDirectly(props: map<string, Value>, name: string): (r: Result<Value, Error>)
    ensures r.Success? <==> name in props
    ensures r.Success? ==> r.value == props[name]
    ensures r.Failure? ==> r.error == ReflectionError(name)
  {
    if name in props then Success(props[name]) else Failure(ReflectionError(name))
  }

  /** `PropertyUtils.writeDirectly` on a property map. */
  function WriteDirectly(props: map<string, Value>, name: string, v: Value): (r: Result<map<string, Value>, Error>)
    ensures r.Success? <==> name in props
    ensures r.Success? ==> r.value.Keys == props.Keys && r.value[name] == v
    ensures r.Success? ==> forall n :: n in props && n != name ==> r.value[n] == props[n]
    ensures r.Failure? ==> r.error == ReflectionError(name)
  {
    if name in props then Success(props[name := v]) else Failure(ReflectionError(name))
  }

  /** What `getPrimaryValue` returns for an object of type `t` with properties `props`. */
  function PrimaryValueOf(t: ModelType, props: map<string, Value>): (r: Result<Value, Error>)
    ensures FirstPrimaryKey(t.fields).None? ==> r == Success(Null)
    ensures FirstPrimaryKey(t.fields).Some? ==>
              var name := FirstPrimaryKey(t.fields).value.name;
              (r.Failure? <==> name !in props) &&
              (r.Success? ==> r.value == props[name]) &&
              (r.Failure? ==> r.error == ReflectionError(name))
  {
    match FirstPrimaryKey(t.fields)
    case None => Success(Null)
    case Some(pk) => ReadDirectly(props, pk.name)
  }

  /** The properties after `writePrimaryValue`, or the exception it throws. */
  function WithPrimaryValue(t: ModelType, props: map<string, Value>, v: Value): (r: Result<map<string, Value>, Error>)
    ensures FirstPrimaryKey(t.fields).None? ==> r == Success(props)
    ensures FirstPrimaryKey(t.fields).Some? ==>
              var name := FirstPrimaryKey(t.fields).value.name;
              (r.Failure? <==> name !in props) &&
              (r.Success? ==> r.value == props[name := v]) &&
              (r.Failure? ==> r.error == ReflectionError(name))
  {
    match FirstPrimaryKey(t.fields)
    case None => Success(props)
    case Some(pk) => WriteDirectly(props, pk.name, v)
  }

  /** `getPrimaryValue`: the value of the property the first `@PrimaryKey` names, or `null`. */
  method GetPrimaryValue(obj: DomainObject) returns (r: Result<Value, Error>)
    ensures r == PrimaryValueOf(obj.modelType, obj.properties)
    ensures obj.Valid() ==>
              (r.Failure? <==> FirstPrimaryKey(obj.modelType.fields).Some? &&
                               FirstPrimaryKey(obj.modelType.fields).value.name !in FieldNames(obj.modelType.fields))
  {
    var primaryKey := GetPrimaryKey(obj.modelType);
    if primaryKey.Some? {
      r := ReadDirectly(obj.properties, primaryKey.value.name);
    } else {
      r := Success(Null);
    }
  }

  /** `writePrimaryValue`: sets the property the first `@PrimaryKey` names; nothing without one. */
  method WritePrimaryValue(obj: DomainObject, v: Value) returns (outcome: Outcome<Error>)
    requires obj.Valid()
    modifies obj
    ensures obj.Valid()
    ensures match WithPrimaryValue(obj.modelType, old(obj.properties), v)
            case Success(props) => outcome == Pass && obj.properties == props
            case Failure(e) => outcome == Fail(e) && obj.properties == old(obj.properties)
    ensures outcome.Fail? <==> FirstPrimaryKey(obj.modelType.fields).Some? &&
                               FirstPrimaryKey(obj.modelType.fields).value.name !in FieldNames(obj.modelType.fields)
  {
    var primaryKey := GetPrimaryKey(obj.modelType);
    if primaryKey.Some? {
      var written := WriteDirectly(obj.properties, primaryKey.value.name, v);
      if written.Success? {
        obj.properties := written.value;
        outcome := Pass;
      } else {
        outcome := Fail(written.error);
      }
    } else {
      outcome := Pass;
    }
  }

  /** Without a `@PrimaryKey`, the primary value is `null` and writing it changes nothing. */
  lemma NoPrimaryKeyNoValue(t: ModelType, props: map<string, Value>, v: Value)
    requires forall i :: 0 <= i < |t.fields| ==> !HasPrimaryKey(t.fields[i])
    ensures PrimaryValueOf(t, props) == Success(Null)
    ensures WithPrimaryValue(t, props, v) == Success(props)
  {
  }

  /**
   * On an object that has exactly its declared properties, reading and writing the primary
   * value fail exactly when the first `@PrimaryKey` names no declared field.
   */
  lemma PrimaryValueNeedsDeclaredName(t: ModelType, props: map<string, Value>, v: Value)
    requires props.Keys == FieldNames(t.fields)
    ensures PrimaryValueOf(t, props).Failure? <==>
              FirstPrimaryKey(t.fields).Some? && FirstPrimaryKey(t.fields).value.name !in FieldNames(t.fields)
    ensures WithPrimaryValue(t, props, v).Failure? <==> PrimaryValueOf(t, props).Failure?
  {
  }

  /** A written primary value is read back; every other property is left as it was. */
  lemma ReadAfterWrite(t: ModelType, props: map<string, Value>, v: Value)
    requires WithPrimaryValue(t, props, v).Success?
    ensures var after := WithPrimaryValue(t, props, v).value;
            after.Keys == props.Keys &&
            PrimaryValueOf(t, after) == (if FirstPrimaryKey(t.fields).Some? then Success(v) else Success(Null))
    ensures var after := WithPrimaryValue(t, props, v).value;
            forall n :: n in props && (FirstPrimaryKey(t.fields).None? || n != FirstPrimaryKey(t.fields).value.name) ==>
              after[n] == props[n]
  {
  }

  /** Writing back the value just read leaves the object unchanged. */
  lemma WriteBackUnchanged(t: ModelType, props: map<string, Value>)
    requires PrimaryValueOf(t, props).Success?
    ensures WithPrimaryValue(t, props, PrimaryValueOf(t, props).value) == Success(props)
  {
    match FirstPrimaryKey(t.fields)
    case None =>
    case Some(pk) =>
      assert props[pk.name := props[pk.name]] == props;
  }

  // ---------------------------------------------------------------------------------------
  // Column names
  // ---------------------------------------------------------------------------------------

  /** `Class.getDeclaredField`: the declared field with the given name. */
  function FindField(fs: seq<Field>, name: string): (r: Option<Field>)
    ensures r.None? <==> forall i :: 0 <= i < |fs| ==> fs[i].name != name
    ensures r.Some? ==> r.value in fs && r.value.name == name
  {
    if fs == [] then None
    else if fs[0].name == name then Some(fs[0])
    else
      var r := FindField(fs[1..], name);
      assert forall i :: 0 <= i < |fs[1..]| ==> fs[1..][i] == fs[i + 1];
      r
  }

  /** `getColumnName`: the `@Column` name when present, else the underscored field name. */
  function ColumnName(t: ModelType, fieldName: string, underscore: string -> string): (r: Result<string, Error>)
    ensures r.Failure? <==> forall i :: 0 <= i < |t.fields| ==> t.fields[i].name != fieldName
    ensures r.Failure? ==> r.error == DomainModelError(fieldName)
    ensures r.Success? ==> exists f :: f in t.fields && f.name == fieldName &&
                                       r.value == (if f.column.Some? then f.column.value.name else underscore(fieldName))
  {
    match FindField(t.fields, fieldName)
    case None => Failure(DomainModelError(fieldName))
    case Some(f) => Success(if f.column.Some? then f.column.value.name else underscore(f.name))
  }

  /** In a class with distinct field names, the lookup by a declared name finds that very field. */
  lemma {:induction false} FindDeclaredField(fs: seq<Field>, k: nat)
    requires DistinctFieldNames(fs) && k < |fs|
    ensures FindField(fs, fs[k].name) == Some(fs[k])
  {
    if k > 0 {
      assert fs[0].name != fs[k].name;
      assert DistinctFieldNames(fs[1..]) by {
        forall i, j | 0 <= i < j < |fs[1..]| ensures fs[1..][i].name != fs[1..][j].name {
          assert fs[1..][i] == fs[i + 1] && fs[1..][j] == fs[j + 1];
        }
      }
      FindDeclaredField(fs[1..], k - 1);
      assert fs[1..][k - 1] == fs[k];
    }
  }

  /** Every declared field gets its own override, or its underscored name, as its column. */
  lemma ColumnNameOfDeclaredField(t: ModelType, k: nat, underscore: string -> string)
    requires DistinctFieldNames(t.fields) && k < |t.fields|
    ensures var f := t.fields[k];
            ColumnName(t, f.name, underscore) == Success(if f.column.Some? then f.column.value.name else underscore(f.name))
  {
    FindDeclaredField(t.fields, k);
  }

  // ---------------------------------------------------------------------------------------
  // Validation
  // ---------------------------------------------------------------------------------------

  /** The violations of all beans, concatenated in bean order. */
  function AllViolations<B>(validate: B -> seq<Violation>, beans: seq<B>): (r: seq<Violation>)
    ensures beans == [] ==> r == []
    ensures |beans| == 1 ==> r == validate(beans[0])
  {
    if beans == [] then []
    else AllViolations(validate, beans[..|beans| - 1]) + validate(beans[|beans| - 1])
  }

  /** The violation list a result carries, returned or raised. */
  function Carried(r: Result<seq<Violation>, Error>): seq<Violation>
  {
    match r
    case Success(vs) => vs
    case Failure(ValidationError(vs)) => vs
    case Failure(_) => []
  }

  /** The suppress-or-throw switch: raises iff there are violations and they are not suppressed. */
  function ValidationOutcome(vs: seq<Violation>, suppress: bool): (r: Result<seq<Violation>, Error>)
    ensures r.Failure? <==> |vs| > 0 && !suppress
    ensures r.Failure? ==> r.error.ValidationError?
    ensures Carried(r) == vs
  {
    if |vs| > 0 && !suppress then Failure(ValidationError(vs)) else Success(vs)
  }

  /** A `void` overload: the returned list is dropped, an exception passes through. */
  function Discard(r: Result<seq<Violation>, Error>): (o: Outcome<Error>)
    ensures o.Fail? <==> r.Failure?
    ensures o.Fail? ==> o.error == r.error
  {
    match r
    case Success(_) => Pass
    case Failure(e) => Fail(e)
  }

  /** Aggregation distributes over concatenation of the bean arrays. */
  lemma {:induction false} AllViolationsAppend<B>(validate: B -> seq<Violation>, xs: seq<B>, ys: seq<B>)
    ensures AllViolations(validate, xs + ys) == AllViolations(validate, xs) + AllViolations(validate, ys)
  {
    if ys == [] {
      assert xs + ys == xs;
    } else {
      var init := ys[..|ys| - 1];
      assert (xs + ys)[..|xs + ys| - 1] == xs + init;
      AllViolationsAppend(validate, xs, init);
    }
  }

  /** A violation is in the aggregate exactly when some bean has it. */
  lemma {:induction false} AllViolationsMembership<B>(validate: B -> seq<Violation>, beans: seq<B>, x: Violation)
    ensures x in AllViolations(validate, beans) <==> exists i :: 0 <= i < |beans| && x in validate(beans[i])
  {
    if beans != [] {
      var init := beans[..|beans| - 1];
      AllViolationsMembership(validate, init, x);
      if x in AllViolations(validate, init) {
        var i :| 0 <= i < |init| && x in validate(init[i]);
        assert beans[i] == init[i];
      }
      if exists i :: 0 <= i < |beans| && x in validate(beans[i]) {
        var i :| 0 <= i < |beans| && x in validate(beans[i]);
        if i < |init| {
          assert init[i] == beans[i];
        }
      }
    }
  }

  /** The aggregate is empty exactly when every bean is valid. */
  lemma {:induction false} AllViolationsEmpty<B>(validate: B -> seq<Violation>, beans: seq<B>)
    ensures AllViolations(validate, beans) == [] <==> forall i :: 0 <= i < |beans| ==> validate(beans[i]) == []
  {
    if beans != [] {
      var init := beans[..|beans| - 1];
      AllViolationsEmpty(validate, init);
      forall i | 0 <= i < |init| ensures init[i] == beans[i] {
      }
    }
  }

  /** The single-bean overload with a given flag behaves as the array overload on `[bean]`. */
  lemma SingleBeanIsOneElementArray<B>(validate: B -> seq<Violation>, bean: B, suppress: bool)
    ensures ValidationOutcome(validate(bean), suppress) == ValidationOutcome(AllViolations(validate, [bean]), suppress)
  {
    assert [bean][..0] == [];
    assert AllViolations(validate, [bean]) == [] + validate(bean);
    assert [] + validate(bean) == validate(bean);
  }

  /**
   * With their default flags the two one-argument overloads disagree on an invalid bean:
   * `validate(bean)` returns normally, `validate(new Object[]{bean})` raises.
   */
  lemma DefaultFlagsDisagree<B>(validate: B -> seq<Violation>, bean: B)
    requires validate(bean) != []
    ensures Discard(ValidationOutcome(validate(bean), SINGLE_BEAN_SUPPRESS)) == Pass
    ensures Discard(ValidationOutcome(AllViolations(validate, [bean]), BEAN_ARRAY_SUPPRESS)) ==
              Fail(ValidationError(validate(bean)))
  {
    SingleBeanIsOneElementArray(validate, bean, BEAN_ARRAY_SUPPRESS);
  }

  /** The process-wide validator that every `validate` overload consults. */
  class ValidatorHolder<B> {
    var validator: B -> seq<Violation>

    /** The static initialiser: `initial` stands for the default Bean Validation adapter. */
    constructor (initial: B -> seq<Violation>)
      ensures validator == initial
    {
      validator := initial;
    }

    /** `getValidator`. */
    method GetValidator() returns (v: B -> seq<Violation>)
      ensures v == validator
    {
      v := validator;
    }

    /** `installValidator`: later validations consult `v`. */
    method InstallValidator(v: B -> seq<Violation>)
      modifies this
      ensures validator == v
    {
      validator := v;
    }

    /** `validate(Object bean, boolean suppressException)`. */
    method ValidateBean(bean: B, suppress: bool) returns (r: Result<seq<Violation>, Error>)
      ensures r.Failure? <==> validator(bean) != [] && !suppress
      ensures r.Failure? ==> r.error == ValidationError(validator(bean))
      ensures r.Success? ==> r.value == validator(bean)
    {
      var validator := GetValidator();
      var violations := validator(bean);
      if |violations| > 0 && !suppress {
        return Failure(ValidationError(violations));
      }
      return Success(violations);
    }

    /** `validate(Object bean)`: passes `SINGLE_BEAN_SUPPRESS`, so it never raises. */
    method ValidateBeanDefault(bean: B) returns (r: Outcome<Error>)
      ensures r == Discard(ValidationOutcome(validator(bean), SINGLE_BEAN_SUPPRESS))
      ensures r == Pass
    {
      var result := ValidateBean(bean, SINGLE_BEAN_SUPPRESS);
      r := Discard(result);
    }

    /** `validate(Object bean)` raising as the array overload does on `[bean]`. */
    method ValidateBeanIntended(bean: B) returns (r: Outcome<Error>)
      ensures r == Discard(ValidationOutcome(AllViolations(validator, [bean]), BEAN_ARRAY_SUPPRESS))
      ensures r.Fail? <==> validator(bean) != []
      ensures r.Fail? ==> r.error == ValidationError(validator(bean))
    {
      var result := ValidateBean(bean, BEAN_ARRAY_SUPPRESS);
      SingleBeanIsOneElementArray(validator, bean, BEAN_ARRAY_SUPPRESS);
      r := Discard(result);
    }

    /** `validate(Object[] beans, boolean suppressException)`: collects in one pass, then decides. */
    method ValidateBeans(beans: seq<B>, suppress: bool) returns (r: Result<seq<Violation>, Error>)
      ensures r == ValidationOutcome(AllViolations(validator, beans), suppress)
    {
      var validator := GetValidator();
      var violationList: seq<Violation> := [];
      for i := 0 to |beans|
        invariant violationList == AllViolations(validator, beans[..i])
      {
        assert beans[..i + 1][..i] == beans[..i];
        var violations := validator(beans[i]);
        if |violations| > 0 {
          violationList := violationList + violations;
        }
      }
      assert beans[..|beans|] == beans;
      if |violationList| > 0 && !suppress {
        return Failure(ValidationError(violationList));
      }
      return Success(violationList);
    }

    /** `validate(Object[] beans)`: passes `BEAN_ARRAY_SUPPRESS`, so it raises on any violation. */
    method ValidateBeansDefault(beans: seq<B>) returns (r: Outcome<Error>)
      ensures r.Fail? <==> exists i :: 0 <= i < |beans| && validator(beans[i]) != []
      ensures r.Fail? ==> r.error == ValidationError(AllViolations(validator, beans))
    {
      var result := ValidateBeans(beans, BEAN_ARRAY_SUPPRESS);
      AllViolationsEmpty(validator, beans);
      r := Discard(result);
    }
  }

  // ---------------------------------------------------------------------------------------
  // Count results and default keys
  // ---------------------------------------------------------------------------------------

  newtype int32 = x: int | -0x8000_0000 <= x < 0x8000_0000

  /** The raw attributes of one result row; `None` is SQL `NULL`. */
  type Row = map<string, Option<int32>>

  /** The part of `count` that reads the `_count` attribute of the first row. */
  function CountOf(rows: seq<Row>): (r: int32)
    ensures |rows| == 0 ==> r == 0
    ensures |rows| > 0 && COUNT_ALIAS in rows[0] && rows[0][COUNT_ALIAS].Some? ==> r == rows[0][COUNT_ALIAS].value
    ensures r != 0 ==> |rows| > 0 && COUNT_ALIAS in rows[0] && rows[0][COUNT_ALIAS] == Some(r)
  {
    if |rows| > 0 then
      var count := if COUNT_ALIAS in rows[0] then rows[0][COUNT_ALIAS] else None;
      if count.None? then 0 else count.value
    else 0
  }

  /** Only the first row is read; any further rows are ignored. */
  lemma CountReadsFirstRowOnly(rows: seq<Row>, more: seq<Row>)
    requires |rows| > 0
    ensures CountOf(rows + more) == CountOf(rows) == CountOf(rows[..1])
  {
    assert (rows + more)[0] == rows[0] == rows[..1][0];
  }

  /** `encodeDefaultKey`: `"%s_%s"` of the name and `DEFAULT_KEY_SUFFIX`. */
  function EncodeDefaultKey(name: string): (key: string)
    ensures |key| == |name| + 1 + |DEFAULT_KEY_SUFFIX|
    ensures key[..|name|] == name
    ensures key[|name|..] == "_" + DEFAULT_KEY_SUFFIX
  {
    name + "_" + DEFAULT_KEY_SUFFIX
  }

  /** Distinct names give distinct default keys; the name is the key without its suffix. */
  lemma EncodeDefaultKeyInjective(a: string, b: string)
    ensures EncodeDefaultKey(a) == EncodeDefaultKey(b) ==> a == b
    ensures var key := EncodeDefaultKey(a); key[..|key| - 1 - |DEFAULT_KEY_SUFFIX|] == a
  {
    if EncodeDefaultKey(a) == EncodeDefaultKey(b) {
      assert |a| == |b|;
      assert a == EncodeDefaultKey(a)[..|a|] == EncodeDefaultKey(b)[..|b|] == b;
    }
  }
}
