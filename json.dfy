/** The JSON values a records file holds, and Python's str() of them. */
module Json {
  import opened Text

  /** A JSON value. An object holds its members as a list of (key, value) pairs, which
      may repeat a key; json.load's collapsing of a repeated key into one dict entry is
      left to Lookup, which reads the last value, as the dict does. */
  datatype Json =
    | JNull
    | JBool(b: bool)
    | JNumber(n: int)
    | JString(s: string)
    | JArray(items: seq<Json>)
    | JObject(members: seq<(string, Json)>)

  /** The value json.load keeps for a key: the last member that names it. */
  function Lookup(members: seq<(string, Json)>, key: string): (r: Option<Json>)
    ensures r.None? <==> forall i :: 0 <= i < |members| ==> members[i].0 != key
    ensures r.Some? ==> exists i ::
      && 0 <= i < |members| && members[i] == (key, r.value)
      && forall j :: i < j < |members| ==> members[j].0 != key
  {
    if members == [] then None
    else
      var last := members[|members| - 1];
      if last.0 == key then Some(last.1)
      else
        var r := Lookup(members[..|members| - 1], key);
        assert forall i :: 0 <= i < |members| - 1 ==> members[..|members| - 1][i] == members[i];
        if r.Some? then LastOccurrence(members, key, r.value); r else r
  }

  /** A member that is the last to name the key among all but the last member is still
      the last one when the last member names another key. */
  lemma LastOccurrence(members: seq<(string, Json)>, key: string, v: Json)
    requires members != [] && members[|members| - 1].0 != key
    requires var front := members[..|members| - 1];
      exists i :: && 0 <= i < |front| && front[i] == (key, v)
                  && forall j :: i < j < |front| ==> front[j].0 != key
    ensures exists i :: && 0 <= i < |members| && members[i] == (key, v)
                        && forall j :: i < j < |members| ==> members[j].0 != key
  {
    var front := members[..|members| - 1];
    var i :| && 0 <= i < |front| && front[i] == (key, v)
             && forall j :: i < j < |front| ==> front[j].0 != key;
    assert members[i] == front[i];
    assert forall j :: i < j < |members| - 1 ==> members[j] == front[j];
  }

  /** The pieces with `sep` between each two. */
  function JoinWith(pieces: seq<string>, sep: string): string {
    if pieces == [] then ""
    else if |pieces| == 1 then pieces[0]
    else pieces[0] + sep + JoinWith(pieces[1..], sep)
  }

  /** repr() of a value inside a list or dict: a string is shown between single quotes. */
  function Repr(v: Json): (r: string)
    ensures r != [] && !IsSpace(r[0])
    decreases v
  {
    match v
    case JNull => "None"
    case JBool(b) => if b then "True" else "False"
    case JNumber(n) => NumberText(n)
    case JString(s) => "'" + s + "'"
    case JArray(items) =>
      "[" + JoinWith(seq(|items|, i requires 0 <= i < |items| => Repr(items[i])), ", ") + "]"
    case JObject(members) =>
      "{" + JoinWith(seq(|members|, i requires 0 <= i < |members| =>
                        MemberRepr(v, members[i])), ", ") + "}"
  }

  function MemberRepr(v: Json, m: (string, Json)): string
    requires v.JObject? && m in v.members
    decreases v, 0
  {
    "'" + m.0 + "': " + Repr(m.1)
  }

  /** str(n): an optional minus sign, then digits. */
  function NumberText(n: int): (r: string)
    ensures r != [] && (r[0] == '-' || IsDigit(r[0]))
  {
    var d := NatToDecimal(if n < 0 then -n else n);
    assert IntToDecimal(n)[0] == if n < 0 then '-' else d[0];
    IntToDecimal(n)
  }

  /** str(v): a string is itself, any other value its repr(). */
  function PyStr(v: Json): string {
    if v.JString? then v.s else Repr(v)
  }

  /** str(v).strip() is empty exactly when v is a string of whitespace only: null,
      booleans, numbers, lists and objects are never blank. */
  lemma StrBlankIff(v: Json)
    ensures Strip(PyStr(v)) == "" <==> v.JString? && IsBlank(v.s)
  {
    if !v.JString? {
      var r := Repr(v);
      assert !IsBlank(r) by {
        assert !IsSpace(r[0]);
      }
    }
  }
}
