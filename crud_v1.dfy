/** The CRUD actions of TrabalhoFinal.py: `insert`, `update` and `delete`.
    Each walks the catalog with a for-else loop, stops at the first key
    equal to the normalised name, and builds one statement with `"".join`
    over a literal list.  Unlike old/TrabalhoFinal_v2.py, the table name
    stays upper-case and the inserted value is used exactly as typed. */
module CrudV1 {
  import opened Wrappers
  import opened PyStr
  import opened Catalog

  /** The for-else lookup: `found` is false exactly when the loop ran to
      its `else`; otherwise `index` is the first (and, the keys of a
      dictionary being distinct, only) position holding `name`. */
  method FindTable(tables: seq<string>, name: string) returns (found: bool, index: nat)
    ensures found <==> name in tables
    ensures found ==> index < |tables| && tables[index] == name && name !in tables[..index]
  {
    found, index := false, 0;
    for i := 0 to |tables|
      invariant name !in tables[..i]
    {
      if tables[i] == name {
        found, index := true, i;
        return;
      }
    }
  }

  /** `"".join` of a four-part list. */
  lemma Concat4(a: string, b: string, c: string, d: string)
    ensures Concat([a, b, c, d]) == a + b + c + d
  {
    assert [d][1..] == [];
    assert Concat([d]) == d;
    assert [c, d][1..] == [d];
    assert Concat([c, d]) == c + d;
    assert [b, c, d][1..] == [c, d];
    assert Concat([b, c, d]) == b + c + d;
    assert [a, b, c, d][1..] == [b, c, d];
  }

  /** `"".join` of a six-part list. */
  lemma Concat6(a: string, b: string, c: string, d: string, e: string, f: string)
    ensures Concat([a, b, c, d, e, f]) == a + b + c + d + e + f
  {
    assert [a, b, c, d, e, f][1..] == [b, c, d, e, f];
    assert [b, c, d, e, f][1..] == [c, d, e, f];
    Concat4(c, d, e, f);
  }

  /** `"".join` of a ten-part list. */
  lemma Concat10(a: string, b: string, c: string, d: string, e: string,
                 f: string, g: string, h: string, i: string, j: string)
    ensures Concat([a, b, c, d, e, f, g, h, i, j]) == a + b + c + d + e + f + g + h + i + j
  {
    assert [a, b, c, d, e, f, g, h, i, j] == [a, b, c, d] + [e, f, g, h, i, j];
    ConcatAppend([a, b, c, d], [e, f, g, h, i, j]);
    Concat4(a, b, c, d);
    Concat6(e, f, g, h, i, j);
  }

  /** `insert`: the value is neither stripped nor checked. */
  method Insert(tables: seq<string>, typed: string, newValue: string) returns (sql: Option<string>)
    ensures sql.Some? <==> TableName(typed) in tables
    ensures sql.Some? ==> sql.value == "INSERT INTO " + TableName(typed) + " VALUES " + newValue
  {
    var name := TableName(typed);
    var found, _ := FindTable(tables, name);
    if !found {
      return None;
    }
    Concat4("INSERT INTO ", name, " VALUES ", newValue);
    sql := Some(Concat(["INSERT INTO ", name, " VALUES ", newValue]));
  }

  /** `update`: every field is stripped. */
  method Update(tables: seq<string>, typed: string, attribute: string, value: string,
                keyColumn: string, key: string) returns (sql: Option<string>)
    ensures sql.Some? <==> TableName(typed) in tables
    ensures sql.Some? ==> sql.value == "UPDATE " + TableName(typed) + " SET " + Strip(attribute) + " = "
                                       + Strip(value) + " WHERE " + Strip(keyColumn) + " = " + Strip(key)
  {
    var name := TableName(typed);
    var found, _ := FindTable(tables, name);
    if !found {
      return None;
    }
    var atributo, valor, codigoF, codigo := Strip(attribute), Strip(value), Strip(keyColumn), Strip(key);
    Concat10("UPDATE ", name, " SET ", atributo, " = ", valor, " WHERE ", codigoF, " = ", codigo);
    sql := Some(Concat(["UPDATE ", name, " SET ", atributo, " = ", valor, " WHERE ", codigoF, " = ", codigo]));
  }

  /** `delete`: both key fields are stripped. */
  method Delete(tables: seq<string>, typed: string, keyColumn: string, key: string) returns (sql: Option<string>)
    ensures sql.Some? <==> TableName(typed) in tables
    ensures sql.Some? ==> sql.value == "DELETE FROM " + TableName(typed) + " WHERE " + Strip(keyColumn)
                                       + " = " + Strip(key)
  {
    var name := TableName(typed);
    var found, _ := FindTable(tables, name);
    if !found {
      return None;
    }
    var codigoF, codigo := Strip(keyColumn), Strip(key);
    Concat6("DELETE FROM ", name, " WHERE ", codigoF, " = ", codigo);
    sql := Some(Concat(["DELETE FROM ", name, " WHERE ", codigoF, " = ", codigo]));
  }
}
