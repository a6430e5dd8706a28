/**
 The secrets store: a user's custom secrets, one row each, encrypted before they are written and decrypted after
 they are read, by traversals of nested dictionaries.
 */
module SecretsStore {
  import opened Options

  datatype Value = Null | Text(text: string) | Dict(fields: seq<Field>)
  datatype Field = Field(key: string, value: Value)

  /** Encryption draws a fresh nonce each time; decryption fails on what was not encrypted under the same key. */
  type Encryption = (nat, string) -> string
  type Decryption = string -> Option<string>

  ghost predicate Inverse(enc: Encryption, dec: Decryption) {
    forall n, x :: dec(enc(n, x)) == Some(x)
  }

  // ---------------------------------------------------------------- the two traversals

  /** The new fields, and the next nonce. */
  function Encrypted(enc: Encryption, kwargs: seq<Field>, n: nat): (seq<Field>, nat)
    decreases kwargs
  {
    if kwargs == [] then ([], n) else
    var (value, k) :=
      match kwargs[0].value
      case Dict(fields) => (var (inner, k) := Encrypted(enc, fields, n); (Dict(inner), k))
      case Null => (Null, n)
      case Text(text) => (Text(enc(n, text)), n + 1);
    var (rest, m) := Encrypted(enc, kwargs[1..], k);
    ([Field(kwargs[0].key, value)] + rest, m)
  }

  /** None stands for the exception of a value that cannot be decrypted. */
  function Decrypted(dec: Decryption, kwargs: seq<Field>): Option<seq<Field>>
    decreases kwargs
  {
    if kwargs == [] then Some([]) else
    var value :=
      match kwargs[0].value
      case Dict(fields) => (var inner := Decrypted(dec, fields); if inner.None? then None else Some(Dict(inner.value)))
      case Null => Some(Null)
      case Text(text) => (var plain := dec(text); if plain.None? then None else Some(Text(plain.value)));
    var rest := Decrypted(dec, kwargs[1..]);
    if value.None? || rest.None? then None else Some([Field(kwargs[0].key, value.value)] + rest.value)
  }

  /** Decryption undoes encryption on dictionaries of any shape and depth. */
  lemma {:induction false} DecryptionUndoes(enc: Encryption, dec: Decryption, kwargs: seq<Field>, n: nat)
    requires Inverse(enc, dec)
    ensures Decrypted(dec, Encrypted(enc, kwargs, n).0) == Some(kwargs)
    decreases kwargs
  {
    if kwargs != [] {
      var first, k := kwargs[0].value, n;
      match first {
        case Dict(fields) =>
          DecryptionUndoes(enc, dec, fields, n);
          k := Encrypted(enc, fields, n).1;
        case Null =>
        case Text(text) =>
          assert dec(enc(n, text)) == Some(text);
          k := n + 1;
      }
      DecryptionUndoes(enc, dec, kwargs[1..], k);
      assert Encrypted(enc, kwargs, n).0[1..] == Encrypted(enc, kwargs[1..], k).0;
      assert kwargs == [kwargs[0]] + kwargs[1..];
    }
  }

  // ---------------------------------------------------------------- secrets, rows and the dictionaries between

  datatype CustomSecret = CustomSecret(secret: string, description: string)
  datatype Named = Named(name: string, secret: CustomSecret)

  /** A row; a column holds text or NULL. */
  datatype Row = Row(user: string, name: string, value: Option<string>, description: Option<string>)

  function AsValue(column: Option<string>): Value { if column.Some? then Text(column.value) else Null }
  function AsColumn(v: Value): Option<string> { if v.Text? then Some(v.text) else None }

  function Info(secret: Value, description: Value): Value {
    Dict([Field("secret", secret), Field("description", description)])
  }

  function FieldsOf(v: Value): seq<Field> { if v.Dict? then v.fields else [] }

  /** get(key), with None for a missing key. */
  function Get(kwargs: seq<Field>, key: string): Value {
    if kwargs == [] then Null else if kwargs[0].key == key then kwargs[0].value else Get(kwargs[1..], key)
  }

  /** The dump of the item, without the provider tokens. */
  function Dump(item: seq<Named>): seq<Field> {
    [Field("custom_secrets", Dict(seq(|item|, i requires 0 <= i < |item| =>
      Field(item[i].name, Info(Text(item[i].secret.secret), Text(item[i].secret.description))))))]
  }

  function RowOf(user: string, f: Field): Row {
    Row(user, f.key, AsColumn(Get(FieldsOf(f.value), "secret")), AsColumn(Get(FieldsOf(f.value), "description")))
  }

  function RowsOf(user: string, secrets: seq<Field>): seq<Row> {
    if secrets == [] then [] else RowsOf(user, secrets[..|secrets| - 1]) + [RowOf(user, secrets[|secrets| - 1])]
  }

  function OfUser(table: seq<Row>, user: string): seq<Row> {
    if table == [] then []
    else OfUser(table[..|table| - 1], user) + if table[|table| - 1].user == user then [table[|table| - 1]] else []
  }

  function Without(table: seq<Row>, user: string): seq<Row> {
    if table == [] then []
    else Without(table[..|table| - 1], user) + if table[|table| - 1].user != user then [table[|table| - 1]] else []
  }

  function FieldOf(r: Row): Field { Field(r.name, Info(AsValue(r.value), AsValue(r.description))) }

  /** kwargs[key] = value: a new key goes to the end. */
  function Put(kwargs: seq<Field>, f: Field): seq<Field> {
    if kwargs == [] then [f]
    else if kwargs[0].key == f.key then [f] + kwargs[1..]
    else [kwargs[0]] + Put(kwargs[1..], f)
  }

  function Collected(rows: seq<Row>): seq<Field> {
    if rows == [] then [] else Put(Collected(rows[..|rows| - 1]), FieldOf(rows[|rows| - 1]))
  }

  /** The secret that a dictionary describes, or None if it does not validate: both entries have to be text. */
  function Validated(v: Value): Option<CustomSecret> {
    var secret, description := Get(FieldsOf(v), "secret"), Get(FieldsOf(v), "description");
    if secret.Text? && description.Text? then Some(CustomSecret(secret.text, description.text)) else None
  }

  /** What does not validate is skipped. */
  function Converted(kwargs: seq<Field>): map<string, CustomSecret> {
    if kwargs == [] then map[]
    else
      var last := kwargs[|kwargs| - 1];
      var before := Converted(kwargs[..|kwargs| - 1]);
      if Validated(last.value).Some? then before[last.key := Validated(last.value).value] else before
  }

  /** What loading the rows of a user yields; None stands for a decryption that fails. */
  function Loaded(dec: Decryption, rows: seq<Row>): Option<map<string, CustomSecret>> {
    var plain := Decrypted(dec, Collected(rows));
    if plain.None? then None else Some(Converted(plain.value))
  }

  /** The table after a store, with the given next nonce. */
  function Stored(enc: Encryption, table: seq<Row>, user: string, item: seq<Named>, n: nat): seq<Row> {
    Without(table, user) + RowsOf(user, FieldsOf(Get(Encrypted(enc, Dump(item), n).0, "custom_secrets")))
  }

  // ---------------------------------------------------------------- the store

  /** The answer of a load; Failed stands for the exception of a failed decryption. */
  datatype Answer = NoUser | Failed | Secrets(secrets: map<string, CustomSecret>)

  class SaasSecretsStore {
    const userId: string
    var table: seq<Row>
    var nonce: nat

    constructor (userId: string, table: seq<Row>)
      ensures this.userId == userId && this.table == table
    {
      this.userId, this.table, nonce := userId, table, 0;
    }

    method Store(enc: Encryption, item: seq<Named>)
      modifies this
      ensures table == Stored(enc, old(table), userId, item, old(nonce))
    {
      hide Encrypted, Get, Without, Dump, RowOf;
      table := Without(table, userId);
      var (kwargs, next) := Encrypted(enc, Dump(item), nonce);
      nonce := next;
      var secrets := FieldsOf(Get(kwargs, "custom_secrets"));
      for i := 0 to |secrets|
        invariant table == Without(old(table), userId) + RowsOf(userId, secrets[..i])
      {
        assert secrets[..i + 1][..i] == secrets[..i];
        table := table + [RowOf(userId, secrets[i])];
      }
      assert secrets[..|secrets|] == secrets;
    }

    /** rows are the rows of the user, in the order in which the database lists them. */
    method Load(dec: Decryption, rows: seq<Row>) returns (answer: Answer)
      requires multiset(rows) == multiset(OfUser(table, userId))
      ensures answer == if userId == "" then NoUser
                        else if Loaded(dec, rows).None? then Failed else Secrets(Loaded(dec, rows).value)
    {
      if userId == "" {
        return NoUser;
      }
      if rows == [] {
        return Secrets(map[]);
      }
      var kwargs := [];
      for i := 0 to |rows|
        invariant kwargs == Collected(rows[..i])
      {
        assert rows[..i + 1][..i] == rows[..i];
        kwargs := Put(kwargs, FieldOf(rows[i]));
      }
      assert rows[..|rows|] == rows;
      var plain := Decrypted(dec, kwargs);
      return if plain.None? then Failed else Secrets(Converted(plain.value));
    }
  }

  // ---------------------------------------------------------------- what a load yields, row by row

  ghost predicate DistinctNames(rows: seq<Row>) {
    forall i, j | 0 <= i < j < |rows| :: rows[i].name != rows[j].name
  }

  function Plain(dec: Decryption, column: Option<string>): Option<string> {
    if column.None? then None else dec(column.value)
  }

  predicate Readable(dec: Decryption, r: Row) {
    (r.value.Some? ==> dec(r.value.value).Some?) && (r.description.Some? ==> dec(r.description.value).Some?)
  }

  /** What a row contributes. */
  function Opened(dec: Decryption, r: Row): Option<CustomSecret> {
    var secret, description := Plain(dec, r.value), Plain(dec, r.description);
    if secret.Some? && description.Some? then Some(CustomSecret(secret.value, description.value)) else None
  }

  /** No later row of the list has the name of row i. */
  ghost predicate LastOf(rows: seq<Row>, i: nat) {
    i < |rows| && forall j | i < j < |rows| :: rows[j].name != rows[i].name
  }

  /** A row takes the place of the one of its name, if there is one. */
  function PutRow(rows: seq<Row>, r: Row): seq<Row> {
    if rows == [] then [r]
    else if rows[0].name == r.name then [r] + rows[1..]
    else [rows[0]] + PutRow(rows[1..], r)
  }

  /** The last row of each name, in the order in which the names first come up. */
  function Latest(rows: seq<Row>): seq<Row> {
    if rows == [] then [] else PutRow(Latest(rows[..|rows| - 1]), rows[|rows| - 1])
  }

  ghost predicate AreFields(kwargs: seq<Field>, rows: seq<Row>) {
    |kwargs| == |rows| && forall i | 0 <= i < |rows| :: kwargs[i] == FieldOf(rows[i])
  }

  lemma {:induction false} PutKeepsFields(kwargs: seq<Field>, rows: seq<Row>, r: Row)
    requires AreFields(kwargs, rows)
    ensures AreFields(Put(kwargs, FieldOf(r)), PutRow(rows, r))
    decreases |rows|
  {
    if rows != [] && rows[0].name != r.name {
      PutKeepsFields(kwargs[1..], rows[1..], r);
    }
  }

  lemma {:induction false} CollectedAreLatest(rows: seq<Row>)
    ensures AreFields(Collected(rows), Latest(rows))
  {
    if rows != [] {
      var before := rows[..|rows| - 1];
      CollectedAreLatest(before);
      PutKeepsFields(Collected(before), Latest(before), rows[|rows| - 1]);
    }
  }

  lemma {:induction false} PutRowReplaces(rows: seq<Row>, r: Row)
    requires DistinctNames(rows)
    ensures DistinctNames(PutRow(rows, r))
    ensures forall x :: x in PutRow(rows, r) <==> x == r || (x in rows && x.name != r.name)
    decreases |rows|
  {
    if rows != [] {
      var first, rest := rows[0], rows[1..];
      assert rows == [first] + rest;
      assert forall x | x in rest :: x.name != first.name;
      PutRowReplaces(rest, r);
      if first.name != r.name {
        var tail := PutRow(rest, r);
        forall j | 0 <= j < |tail| ensures tail[j].name != first.name { assert tail[j] in tail; }
      }
    }
  }

  lemma {:induction false} LatestAreDistinct(rows: seq<Row>)
    ensures DistinctNames(Latest(rows))
  {
    if rows != [] {
      LatestAreDistinct(rows[..|rows| - 1]);
      PutRowReplaces(Latest(rows[..|rows| - 1]), rows[|rows| - 1]);
    }
  }

  /** A row that is kept is the last of its name. */
  lemma {:induction false} KeptIsLast(rows: seq<Row>, r: Row) returns (i: nat)
    requires r in Latest(rows)
    ensures LastOf(rows, i) && rows[i] == r
  {
    var before, last := rows[..|rows| - 1], rows[|rows| - 1];
    LatestAreDistinct(before);
    PutRowReplaces(Latest(before), last);
    hide Latest, PutRow;
    i := |rows| - 1;
    if r != last {
      i := KeptIsLast(before, r);
    }
  }

  /** The last row of a name is kept. */
  lemma {:induction false} LastIsKept(rows: seq<Row>, i: nat) returns (p: nat)
    requires LastOf(rows, i)
    ensures p < |Latest(rows)| && Latest(rows)[p] == rows[i]
  {
    var before, last := rows[..|rows| - 1], rows[|rows| - 1];
    LatestAreDistinct(before);
    PutRowReplaces(Latest(before), last);
    if i < |before| {
      p := LastIsKept(before, i);
      assert rows[i] in Latest(before) && rows[|rows| - 1].name != rows[i].name;
    }
    assert rows[i] in Latest(rows);
    p :| p < |Latest(rows)| && Latest(rows)[p] == rows[i];
  }

  /** The dictionary of one row, decrypted. */
  function OpenField(dec: Decryption, r: Row): Field
    requires Readable(dec, r)
  {
    Field(r.name, Info(AsValue(Plain(dec, r.value)), AsValue(Plain(dec, r.description))))
  }

  lemma DecryptedInfo(dec: Decryption, r: Row)
    ensures Decrypted(dec, FieldsOf(FieldOf(r).value)) ==
              if Readable(dec, r) then Some(FieldsOf(OpenField(dec, r).value)) else None
  {
    var a, b := Field("secret", AsValue(r.value)), Field("description", AsValue(r.description));
    DecryptedColumn(dec, "description", r.description, []);
    DecryptedColumn(dec, "secret", r.value, [b]);
    assert [a] + [b] == [a, b] && [b] + [] == [b];
    var x, y := Field("secret", AsValue(Plain(dec, r.value))), Field("description", AsValue(Plain(dec, r.description)));
    assert [x] + ([y] + []) == [x, y];
  }

  lemma DecryptedColumn(dec: Decryption, key: string, column: Option<string>, rest: seq<Field>)
    ensures var out := Decrypted(dec, rest);
            Decrypted(dec, [Field(key, AsValue(column))] + rest) ==
              if out.None? || (column.Some? && dec(column.value).None?) then None
              else Some([Field(key, AsValue(Plain(dec, column)))] + out.value)
  {
    var fields := [Field(key, AsValue(column))] + rest;
    assert fields[1..] == rest;
  }

  lemma {:induction false} DecryptedRows(dec: Decryption, rows: seq<Row>, kwargs: seq<Field>)
    requires |kwargs| == |rows| && forall i | 0 <= i < |rows| :: kwargs[i] == FieldOf(rows[i])
    ensures Decrypted(dec, kwargs).Some? <==> forall i | 0 <= i < |rows| :: Readable(dec, rows[i])
    ensures Decrypted(dec, kwargs).Some? ==>
              && |Decrypted(dec, kwargs).value| == |rows|
              && forall i | 0 <= i < |rows| :: Decrypted(dec, kwargs).value[i] == OpenField(dec, rows[i])
    decreases |rows|
  {
    hide Readable;
    if rows != [] {
      DecryptedInfo(dec, rows[0]);
      DecryptedRows(dec, rows[1..], kwargs[1..]);
      assert forall i | 0 <= i < |rows| - 1 :: rows[1..][i] == rows[i + 1];
      assert forall i | 1 <= i < |rows| :: rows[i] == rows[1..][i - 1];
    }
  }

  lemma ValidatedOpenField(dec: Decryption, r: Row)
    requires Readable(dec, r)
    ensures Validated(OpenField(dec, r).value) == Opened(dec, r)
  {
    var fields := FieldsOf(OpenField(dec, r).value);
    assert fields[1..] == [Field("description", AsValue(Plain(dec, r.description)))];
    assert |"secret"| != |"description"|;
    assert Get(fields, "description") == Get(fields[1..], "description");
  }

  lemma {:induction false} ConvertedRows(dec: Decryption, rows: seq<Row>, kwargs: seq<Field>, name: string,
                                         secret: CustomSecret)
    requires |kwargs| == |rows| && DistinctNames(rows)
    requires forall i | 0 <= i < |rows| :: Readable(dec, rows[i]) && kwargs[i] == OpenField(dec, rows[i])
    ensures Holds(Converted(kwargs), name, secret) <==> SomeGives(dec, rows, name, secret)
    decreases |rows|
  {
    hide Readable, Opened, Validated;
    if rows != [] {
      var front, last := rows[..|rows| - 1], rows[|rows| - 1];
      ConvertedRows(dec, front, kwargs[..|rows| - 1], name, secret);
      if name in Converted(kwargs[..|rows| - 1]) {
        ConvertedRows(dec, front, kwargs[..|rows| - 1], name, Converted(kwargs[..|rows| - 1])[name]);
      }
      ValidatedOpenField(dec, last);
      assert forall i | 0 <= i < |front| :: front[i] == rows[i];
    }
  }

  ghost predicate Holds(secrets: map<string, CustomSecret>, name: string, secret: CustomSecret) {
    name in secrets && secrets[name] == secret
  }

  /** Some row gives the secret under the name. */
  ghost predicate SomeGives(dec: Decryption, rows: seq<Row>, name: string, secret: CustomSecret) {
    exists i :: 0 <= i < |rows| && rows[i].name == name && Opened(dec, rows[i]) == Some(secret)
  }

  /** The last row of the name gives the secret. */
  ghost predicate LastGives(dec: Decryption, rows: seq<Row>, name: string, secret: CustomSecret) {
    exists i: nat :: LastOf(rows, i) && rows[i].name == name && Opened(dec, rows[i]) == Some(secret)
  }

  lemma LatestGives(dec: Decryption, rows: seq<Row>, name: string, secret: CustomSecret)
    ensures SomeGives(dec, Latest(rows), name, secret) <==> LastGives(dec, rows, name, secret)
  {
    hide Opened, Latest, LastOf;
    if SomeGives(dec, Latest(rows), name, secret) {
      var p :| 0 <= p < |Latest(rows)| && Latest(rows)[p].name == name && Opened(dec, Latest(rows)[p]) == Some(secret);
      var i := KeptIsLast(rows, Latest(rows)[p]);
    }
    if LastGives(dec, rows, name, secret) {
      var i := TheLastOne(dec, rows, name, secret);
      var p := LastIsKept(rows, i);
    }
  }

  lemma TheLastOne(dec: Decryption, rows: seq<Row>, name: string, secret: CustomSecret) returns (i: nat)
    requires LastGives(dec, rows, name, secret)
    ensures i < |rows| && LastOf(rows, i) && rows[i].name == name && Opened(dec, rows[i]) == Some(secret)
  {
    i :| LastOf(rows, i) && rows[i].name == name && Opened(dec, rows[i]) == Some(secret);
  }

  ghost predicate AllReadable(dec: Decryption, rows: seq<Row>) {
    forall p | 0 <= p < |rows| :: Readable(dec, rows[p])
  }

  /** The last row of each name can be decrypted. */
  ghost predicate LastReadable(dec: Decryption, rows: seq<Row>) {
    forall i: nat | LastOf(rows, i) :: Readable(dec, rows[i])
  }

  lemma LastAreReadable(dec: Decryption, rows: seq<Row>)
    requires AllReadable(dec, Latest(rows))
    ensures LastReadable(dec, rows)
  {
    hide Readable, Latest;
    forall i: nat | LastOf(rows, i) ensures Readable(dec, rows[i]) {
      var p := LastIsKept(rows, i);
    }
  }

  lemma KeptAreReadable(dec: Decryption, rows: seq<Row>)
    requires LastReadable(dec, rows)
    ensures AllReadable(dec, Latest(rows))
  {
    hide Readable, Latest;
    forall p | 0 <= p < |Latest(rows)| ensures Readable(dec, Latest(rows)[p]) {
      var i := KeptIsLast(rows, Latest(rows)[p]);
    }
  }

  /**
   Main result: a load fails exactly if the last row of some name has a column that cannot be decrypted; otherwise
   each name has the secret of its last row, and none if that row has a NULL column.  In particular a row without
   a description is lost.
   */
  lemma LoadedExactly(dec: Decryption, rows: seq<Row>)
    ensures Loaded(dec, rows).Some? <==> LastReadable(dec, rows)
    ensures Loaded(dec, rows).Some? ==> forall name, secret ::
              Holds(Loaded(dec, rows).value, name, secret) <==> LastGives(dec, rows, name, secret)
  {
    hide Readable, Opened, SomeGives, LastGives, Holds, LastOf, LastReadable, Latest;
    CollectedAreLatest(rows);
    LatestAreDistinct(rows);
    if AllReadable(dec, Latest(rows)) { LastAreReadable(dec, rows); }
    if LastReadable(dec, rows) { KeptAreReadable(dec, rows); }
    DecryptedRows(dec, Latest(rows), Collected(rows));
    if Loaded(dec, rows).Some? {
      forall name, secret
        ensures Holds(Loaded(dec, rows).value, name, secret) <==> LastGives(dec, rows, name, secret)
      {
        ConvertedRows(dec, Latest(rows), Decrypted(dec, Collected(rows)).value, name, secret);
        LatestGives(dec, rows, name, secret);
      }
    }
  }

  // ---------------------------------------------------------------- load after store

  ghost predicate DistinctItem(item: seq<Named>) {
    forall i, j | 0 <= i < j < |item| :: item[i].name != item[j].name
  }

  lemma {:induction false} FilterSplits(table: seq<Row>, rows: seq<Row>, user: string, other: string)
    requires forall r | r in rows :: r.user == user
    ensures OfUser(Without(table, user) + rows, other) == if other == user then rows else OfUser(table, other)
    decreases |table|, |rows|
  {
    var all := Without(table, user) + rows;
    if rows != [] {
      FilterSplits(table, rows[..|rows| - 1], user, other);
      assert all[..|all| - 1] == Without(table, user) + rows[..|rows| - 1];
      assert all[|all| - 1] == rows[|rows| - 1] && rows[|rows| - 1] in rows;
      assert rows == rows[..|rows| - 1] + [rows[|rows| - 1]];
    } else if table != [] {
      assert all == Without(table, user);
      var before, last := table[..|table| - 1], table[|table| - 1];
      FilterSplits(before, [], user, other);
      assert Without(before, user) + [] == Without(before, user);
      if last.user != user {
        assert all[..|all| - 1] == Without(before, user) && all[|all| - 1] == last;
      }
    }
  }

  /** The secrets part of the encrypted dump decrypts to that of the dump, though the traversal starts deeper. */
  lemma InnerDecrypts(enc: Encryption, dec: Decryption, item: seq<Named>, n: nat)
    requires Inverse(enc, dec)
    ensures var inner := FieldsOf(Get(Encrypted(enc, Dump(item), n).0, "custom_secrets"));
            Decrypted(dec, inner) == Some(FieldsOf(Dump(item)[0].value))
  {
    var fields := FieldsOf(Dump(item)[0].value);
    DecryptionUndoes(enc, dec, fields, n);
    assert Encrypted(enc, Dump(item), n).0[0] == Field("custom_secrets", Dict(Encrypted(enc, fields, n).0));
  }

  /** An encrypted dictionary of two texts. */
  ghost predicate IsEncryptedInfo(dec: Decryption, f: Field, s: Named) {
    && f.key == s.name
    && var secret, description := Get(FieldsOf(f.value), "secret"), Get(FieldsOf(f.value), "description");
       secret.Text? && dec(secret.text) == Some(s.secret.secret)
       && description.Text? && dec(description.text) == Some(s.secret.description)
  }

  lemma {:induction false} EncryptedItem(enc: Encryption, dec: Decryption, item: seq<Named>, kwargs: seq<Field>, n: nat)
    requires Inverse(enc, dec) && |kwargs| == |item|
    requires forall i | 0 <= i < |item| ::
               kwargs[i] == Field(item[i].name, Info(Text(item[i].secret.secret), Text(item[i].secret.description)))
    ensures var out := Encrypted(enc, kwargs, n).0;
            |out| == |item| && forall i | 0 <= i < |item| :: IsEncryptedInfo(dec, out[i], item[i])
    decreases |item|
  {
    if item != [] {
      var fields := FieldsOf(kwargs[0].value);
      assert fields[1..] == [Field("description", Text(item[0].secret.description))] && fields[1..][1..] == [];
      var (inner, k) := Encrypted(enc, fields, n);
      EncryptedInfo(enc, dec, item[0], n);
      hide IsEncryptedInfo;
      EncryptedItem(enc, dec, item[1..], kwargs[1..], k);
      assert forall i | 1 <= i < |item| :: item[i] == item[1..][i - 1];
    }
  }

  lemma EncryptedInfo(enc: Encryption, dec: Decryption, s: Named, n: nat)
    requires Inverse(enc, dec)
    ensures var fields := FieldsOf(Info(Text(s.secret.secret), Text(s.secret.description)));
            IsEncryptedInfo(dec, Field(s.name, Dict(Encrypted(enc, fields, n).0)), s)
  {
    var fields := FieldsOf(Info(Text(s.secret.secret), Text(s.secret.description)));
    assert fields[1..] == [Field("description", Text(s.secret.description))] && fields[1..][1..] == [];
    var a := Field("secret", Text(enc(n, s.secret.secret)));
    var b := Field("description", Text(enc(n + 1, s.secret.description)));
    assert Encrypted(enc, fields[1..], n + 1).0 == [b];
    assert Encrypted(enc, fields, n).0 == [a, b];
    assert [a, b][1..] == [b];
    assert dec(enc(n, s.secret.secret)) == Some(s.secret.secret);
    assert dec(enc(n + 1, s.secret.description)) == Some(s.secret.description);
  }

  lemma {:induction false} RowsOfEach(user: string, secrets: seq<Field>)
    ensures |RowsOf(user, secrets)| == |secrets|
    ensures forall i | 0 <= i < |secrets| :: RowsOf(user, secrets)[i] == RowOf(user, secrets[i])
  {
    if secrets != [] {
      RowsOfEach(user, secrets[..|secrets| - 1]);
    }
  }

  /** The rows that a store writes. */
  lemma WrittenRows(enc: Encryption, dec: Decryption, user: string, item: seq<Named>, n: nat) returns (rows: seq<Row>)
    requires Inverse(enc, dec)
    ensures rows == RowsOf(user, FieldsOf(Get(Encrypted(enc, Dump(item), n).0, "custom_secrets")))
    ensures |rows| == |item|
    ensures forall i | 0 <= i < |item| ::
              && rows[i].user == user && rows[i].name == item[i].name
              && Readable(dec, rows[i]) && Opened(dec, rows[i]) == Some(item[i].secret)
  {
    var fields := FieldsOf(Dump(item)[0].value);
    var out := Encrypted(enc, fields, n).0;
    assert Encrypted(enc, Dump(item), n).0[0] == Field("custom_secrets", Dict(out));
    EncryptedItem(enc, dec, item, fields, n);
    RowsOfEach(user, out);
    rows := RowsOf(user, out);
    forall i | 0 <= i < |item|
      ensures rows[i].name == item[i].name && Readable(dec, rows[i]) && Opened(dec, rows[i]) == Some(item[i].secret)
    {
      assert IsEncryptedInfo(dec, out[i], item[i]);
    }
  }

  lemma ListingIsDistinct(rows: seq<Row>, listed: seq<Row>)
    requires DistinctNames(rows) && multiset(listed) == multiset(rows)
    ensures DistinctNames(listed)
  {
    forall i, j | 0 <= i < j < |listed| ensures listed[i].name != listed[j].name {
      if listed[i].name == listed[j].name {
        assert listed[i] in multiset(rows) && listed[j] in multiset(rows);
        var p :| 0 <= p < |rows| && rows[p] == listed[i];
        var q :| 0 <= q < |rows| && rows[q] == listed[j];
        assert p == q;
        Twice(listed, i, j);
        Once(rows, p);
        assert false;
      }
    }
  }

  lemma Twice(s: seq<Row>, i: nat, j: nat)
    requires i < j < |s| && s[i] == s[j]
    ensures multiset(s)[s[i]] >= 2
  {
    assert s == s[..i] + [s[i]] + s[i + 1..j] + [s[j]] + s[j + 1..];
  }

  lemma Once(s: seq<Row>, i: nat)
    requires i < |s| && forall j | 0 <= j < |s| && j != i :: s[j] != s[i]
    ensures multiset(s)[s[i]] == 1
  {
    assert s == s[..i] + [s[i]] + s[i + 1..];
    assert s[i] !in s[..i] && s[i] !in s[i + 1..];
  }

  /**
   Main result: whatever was in the table before and however the rows are listed, a load after a store yields
   exactly the secrets that were stored, and the rows of other users are as they were.
   */
  lemma LoadAfterStore(enc: Encryption, dec: Decryption, table: seq<Row>, user: string, item: seq<Named>, n: nat,
                       listed: seq<Row>)
    requires Inverse(enc, dec) && DistinctItem(item)
    requires multiset(listed) == multiset(OfUser(Stored(enc, table, user, item, n), user))
    ensures Loaded(dec, listed).Some?
    ensures forall name, secret :: Holds(Loaded(dec, listed).value, name, secret) <==> Named(name, secret) in item
    ensures forall other | other != user :: OfUser(Stored(enc, table, user, item, n), other) == OfUser(table, other)
  {
    var rows := WrittenRows(enc, dec, user, item, n);
    assert forall r | r in rows :: r.user == user;
    forall other
      ensures OfUser(Stored(enc, table, user, item, n), other) == if other == user then rows else OfUser(table, other)
    {
      FilterSplits(table, rows, user, other);
    }
    SameRows(dec, rows, listed, item);
  }

  lemma SameRows(dec: Decryption, rows: seq<Row>, listed: seq<Row>, item: seq<Named>)
    requires multiset(listed) == multiset(rows) && DistinctItem(item) && |rows| == |item|
    requires forall i | 0 <= i < |item| ::
               rows[i].name == item[i].name && Readable(dec, rows[i]) && Opened(dec, rows[i]) == Some(item[i].secret)
    ensures Loaded(dec, listed).Some?
    ensures forall name, secret :: Holds(Loaded(dec, listed).value, name, secret) <==> Named(name, secret) in item
  {
    hide Readable, Opened, Loaded, LastGives, Holds;
    ListingIsDistinct(rows, listed);
    LoadedExactly(dec, listed);
    forall i | 0 <= i < |listed| ensures Readable(dec, listed[i]) {
      assert listed[i] in multiset(rows);
    }
    forall name, secret
      ensures LastGives(dec, listed, name, secret) <==> Named(name, secret) in item
    {
      ListedItem(dec, rows, listed, item, name, secret);
    }
  }

  lemma ListedItem(dec: Decryption, rows: seq<Row>, listed: seq<Row>, item: seq<Named>, name: string,
                   secret: CustomSecret)
    requires multiset(listed) == multiset(rows) && |rows| == |item| && DistinctNames(listed)
    requires forall i | 0 <= i < |item| :: rows[i].name == item[i].name && Opened(dec, rows[i]) == Some(item[i].secret)
    ensures LastGives(dec, listed, name, secret) <==> Named(name, secret) in item
  {
    hide Opened;
    if Named(name, secret) in item {
      var j :| 0 <= j < |item| && item[j] == Named(name, secret);
      assert rows[j] in multiset(listed);
      var i :| 0 <= i < |listed| && listed[i] == rows[j];
    }
    if i :| 0 <= i < |listed| && listed[i].name == name && Opened(dec, listed[i]) == Some(secret) {
      assert listed[i] in multiset(rows);
      var j :| 0 <= j < |rows| && rows[j] == listed[i];
      assert item[j] == Named(name, secret);
    }
  }
}
