/** The statement builders behind the CRUD menu entries of
    old/TrabalhoFinal_v2.py: `consulta_individual`, `insert`, `update` and
    `delete`.  Each normalises the typed table name, refuses a name that is
    not a key of `tables`, and otherwise assembles one SQL string from the
    user's fields with the table name lower-cased.  Executing the string is
    the database driver's business and is not modelled. */
module CrudV2 {
  import opened Wrappers
  import opened PyStr
  import opened Catalog

  /** Why an action printed a message and returned without a statement. */
  datatype Rejection = TableNotFound | InvalidTuple

  /** The value typed for `insert` looks like a tuple. */
  predicate IsTuple(value: string) {
    StartsWith(value, "(") && EndsWith(value, ")")
  }

  /** Lower-casing a string without letters leaves it unchanged. */
  lemma LowerWithoutLetters(s: string)
    requires forall i :: 0 <= i < |s| ==> !IsAsciiLetter(s[i])
    ensures Lower(s) == s
  {
  }

  /** `consulta_individual`: `SELECT * FROM` the lower-cased name.  The
      source lower-cases only when `name.isupper()`; a name that fails that
      test has no letters at all, so it is the same either way. */
  function SelectAll(tables: seq<string>, typed: string): (r: Result<string, Rejection>)
    ensures r.Err? <==> TableName(typed) !in tables
    ensures r.Err? ==> r.error == TableNotFound
    ensures r.Ok? ==> r.value == "SELECT * FROM " + Lower(TableName(typed))
  {
    var name := TableName(typed);
    if name !in tables then Err(TableNotFound)
    else if IsUpper(name) then Ok("SELECT * FROM " + Lower(name))
    else
      LowerWithoutLetters(name);
      Ok("SELECT * FROM " + name)
  }

  /** `insert`: the stripped value must be a parenthesised tuple. */
  function Insert(tables: seq<string>, typed: string, newValue: string): (r: Result<string, Rejection>)
    ensures r == Err(TableNotFound) <==> TableName(typed) !in tables
    ensures r == Err(InvalidTuple) <==> TableName(typed) in tables && !IsTuple(Strip(newValue))
    ensures r.Ok? ==> r.value == "INSERT INTO " + Lower(TableName(typed)) + " VALUES " + Strip(newValue)
  {
    var name := TableName(typed);
    if name !in tables then Err(TableNotFound)
    else
      var value := Strip(newValue);
      if !IsTuple(value) then Err(InvalidTuple)
      else Ok("INSERT INTO " + Lower(name) + " VALUES " + value)
  }

  /** `update`: every field is stripped and pasted in as typed. */
  function Update(tables: seq<string>, typed: string, attribute: string, value: string,
                  keyColumn: string, key: string): (r: Result<string, Rejection>)
    ensures r.Err? <==> TableName(typed) !in tables
    ensures r.Err? ==> r.error == TableNotFound
    ensures r.Ok? ==> r.value == "UPDATE " + Lower(TableName(typed)) + " SET " + Strip(attribute)
                                 + " = " + Strip(value) + " WHERE " + Strip(keyColumn) + " = " + Strip(key)
  {
    var name := TableName(typed);
    if name !in tables then Err(TableNotFound)
    else
      var atributo, valor, codigoF, codigo := Strip(attribute), Strip(value), Strip(keyColumn), Strip(key);
      Ok("UPDATE " + Lower(name) + " SET " + atributo + " = " + valor + " WHERE " + codigoF + " = " + codigo)
  }

  /** `delete`: both key fields are stripped and pasted in as typed. */
  function Delete(tables: seq<string>, typed: string, keyColumn: string, key: string): (r: Result<string, Rejection>)
    ensures r.Err? <==> TableName(typed) !in tables
    ensures r.Err? ==> r.error == TableNotFound
    ensures r.Ok? ==> r.value == "DELETE FROM " + Lower(TableName(typed)) + " WHERE " + Strip(keyColumn)
                                 + " = " + Strip(key)
  {
    var name := TableName(typed);
    if name !in tables then Err(TableNotFound)
    else
      var codigoF, codigo := Strip(keyColumn), Strip(key);
      Ok("DELETE FROM " + Lower(name) + " WHERE " + codigoF + " = " + codigo)
  }
}
