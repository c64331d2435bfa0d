/**
 The static identity table: a fixed, read-only mapping from the classifier's
 label to the person it stands for (app/constant/data.ts).
 */
module UserTable {
  import opened Wrappers

  /** One known person: an employee id, a display name and a position. */
  datatype UserData = UserData(id: string, name: string, position: string)

  /** The table, keyed by classifier label. It is never modified. */
  const UserDatabase: map<string, UserData> := map[
    "Dhavin" := UserData("KT001", "Dhavin Fasya Alviyanto", "IPTEK"),
    "Nono" := UserData("KT002", "Nono", "Staff Administrasi"),
    "Joko" := UserData("KT003", "Joko Anwar", "Security")
  ]

  /** The entry for a classifier label, if the table has one; every other label (the empty one included) has none. */
  function Lookup(key: string): (r: Option<UserData>)
    ensures r.Some? <==> key == "Dhavin" || key == "Nono" || key == "Joko"
    ensures key == "Dhavin" ==> r == Some(UserData("KT001", "Dhavin Fasya Alviyanto", "IPTEK"))
    ensures key == "Nono" ==> r == Some(UserData("KT002", "Nono", "Staff Administrasi"))
    ensures key == "Joko" ==> r == Some(UserData("KT003", "Joko Anwar", "Security"))
  {
    if key in UserDatabase then Some(UserDatabase[key]) else None
  }

  /** The table has exactly three labels. */
  lemma TableLabels()
    ensures UserDatabase.Keys == {"Dhavin", "Nono", "Joko"}
    ensures |UserDatabase| == 3
  {
  }

  /** No two people share an id. */
  lemma IdsDistinct()
    ensures forall a, b :: a in UserDatabase && b in UserDatabase && a != b ==> UserDatabase[a].id != UserDatabase[b].id
  {
  }
}
