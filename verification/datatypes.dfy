/** The field data types of an entity and the table that translates each of them into
    the small vocabulary of primitive type names used in the redesign prompt. */
module DataTypes {

  /** The eighteen keys of `EnumDataType`. */
  datatype EnumDataType =
    | SingleLineText
    | MultiLineText
    | Email
    | WholeNumber
    | DateTime
    | DecimalNumber
    | Lookup
    | MultiSelectOptionSet
    | OptionSet
    | Boolean
    | GeographicLocation
    | Id
    | CreatedAt
    | UpdatedAt
    | Roles
    | Username
    | Password
    | Json

  /** Every data type, once each. */
  const AllDataTypes: seq<EnumDataType> := [
    SingleLineText, MultiLineText, Email, WholeNumber, DateTime, DecimalNumber,
    Lookup, MultiSelectOptionSet, OptionSet, Boolean, GeographicLocation, Id,
    CreatedAt, UpdatedAt, Roles, Username, Password, Json]

  /** The primitive type names a prompt may use for a non-relation field. */
  const PrimitiveVocabulary: set<string> := {"string", "int", "float", "bool", "datetime", "enum"}

  /** `dataTypeMap`: total over the data types, and always a primitive type name. */
  function DataTypeMap(t: EnumDataType): (name: string)
    ensures name in PrimitiveVocabulary
  {
    match t
    case SingleLineText => "string"
    case MultiLineText => "string"
    case Email => "string"
    case WholeNumber => "int"
    case DateTime => "datetime"
    case DecimalNumber => "float"
    case Lookup => "enum"
    case MultiSelectOptionSet => "enum"
    case OptionSet => "enum"
    case Boolean => "bool"
    case GeographicLocation => "string"
    case Id => "int"
    case CreatedAt => "datetime"
    case UpdatedAt => "datetime"
    case Roles => "string"
    case Username => "string"
    case Password => "string"
    case Json => "string"
  }

  /** The table has exactly eighteen keys, one per data type. */
  lemma AllDataTypesEnumerated()
    ensures |AllDataTypes| == 18
    ensures forall t: EnumDataType :: t in AllDataTypes
    ensures forall i, j :: 0 <= i < j < |AllDataTypes| ==> AllDataTypes[i] != AllDataTypes[j]
  {
    forall t: EnumDataType ensures t in AllDataTypes {
      match t
      case SingleLineText => assert AllDataTypes[0] == t;
      case MultiLineText => assert AllDataTypes[1] == t;
      case Email => assert AllDataTypes[2] == t;
      case WholeNumber => assert AllDataTypes[3] == t;
      case DateTime => assert AllDataTypes[4] == t;
      case DecimalNumber => assert AllDataTypes[5] == t;
      case Lookup => assert AllDataTypes[6] == t;
      case MultiSelectOptionSet => assert AllDataTypes[7] == t;
      case OptionSet => assert AllDataTypes[8] == t;
      case Boolean => assert AllDataTypes[9] == t;
      case GeographicLocation => assert AllDataTypes[10] == t;
      case Id => assert AllDataTypes[11] == t;
      case CreatedAt => assert AllDataTypes[12] == t;
      case UpdatedAt => assert AllDataTypes[13] == t;
      case Roles => assert AllDataTypes[14] == t;
      case Username => assert AllDataTypes[15] == t;
      case Password => assert AllDataTypes[16] == t;
      case Json => assert AllDataTypes[17] == t;
    }
  }

  /** Every primitive type name is the translation of some data type, so the
      table's range is exactly the vocabulary. Numbers split into whole (`int`)
      and decimal (`float`); `Boolean` is the only `bool`. */
  lemma DataTypeMapOntoVocabulary()
    ensures forall w :: w in PrimitiveVocabulary <==> exists t :: DataTypeMap(t) == w
    ensures DataTypeMap(WholeNumber) == "int" && DataTypeMap(DecimalNumber) == "float"
    ensures forall t :: DataTypeMap(t) == "bool" <==> t == Boolean
  {
    assert DataTypeMap(SingleLineText) == "string";
    assert DataTypeMap(WholeNumber) == "int";
    assert DataTypeMap(DecimalNumber) == "float";
    assert DataTypeMap(Boolean) == "bool";
    assert DataTypeMap(DateTime) == "datetime";
    assert DataTypeMap(OptionSet) == "enum";
  }
}
