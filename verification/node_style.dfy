/** The per-type colour table of a node (`nodeColors`) and the lookup with
    its `'slate'` fallback. */
module NodeStyle {
  import opened Wrappers

  /** `nodeColors`, as (type, colour) pairs in declaration order. */
  const NodeColorTable: seq<(string, string)> := [
    ("ai-chat", "purple"),
    ("summarize", "blue"),
    ("classify", "amber"),
    ("extract", "green"),
    ("web-scrape", "cyan"),
    ("database", "indigo"),
    ("email", "red"),
    ("api", "orange"),
    ("save-file", "slate"),
    ("send-email", "pink"),
    ("webhook", "violet")
  ]

  /** The colour of a node whose type has no entry. */
  const DefaultColor: string := "slate"

  /** The types the table names. */
  predicate IsKnownType(t: string) {
    exists i :: 0 <= i < |NodeColorTable| && NodeColorTable[i].0 == t
  }

  /** The value stored under key `t` in an association list, if any. */
  function Lookup(table: seq<(string, string)>, t: string): (r: Option<string>)
    ensures r.None? <==> forall i :: 0 <= i < |table| ==> table[i].0 != t
    ensures r.Some? ==> exists i :: 0 <= i < |table| && table[i] == (t, r.value)
  {
    if |table| == 0 then None
    else if table[0].0 == t then Some(table[0].1)
    else
      var r := Lookup(table[1..], t);
      assert forall i :: 1 <= i < |table| ==> table[i] == table[1..][i - 1];
      r
  }

  /** The table has no repeated key, so a lookup finds the one entry. */
  lemma TableKeysDistinct()
    ensures forall i, j :: 0 <= i < j < |NodeColorTable| ==> NodeColorTable[i].0 != NodeColorTable[j].0
  {
  }

  /** The colour a node of type `t` is drawn in, reading only the table's
      own entries: the entry for a listed type, `'slate'` for every other. */
  function ColorOf(t: string): (c: string)
    ensures forall i :: 0 <= i < |NodeColorTable| && NodeColorTable[i].0 == t ==> c == NodeColorTable[i].1
    ensures !IsKnownType(t) ==> c == DefaultColor
    ensures c != ""
  {
    TableKeysDistinct();
    match Lookup(NodeColorTable, t)
    case Some(c) => c
    case None => DefaultColor
  }

  /** What `nodeColors[t] || 'slate'` evaluates to in JavaScript: an own
      entry, the fallback, or a member every object inherits from
      `Object.prototype` (a function, or for `__proto__` the prototype
      object itself), which is truthy. */
  datatype StyleValue = ColorName(name: string) | InheritedMember(member: string)

  /** The property names every object literal inherits from `Object.prototype`. */
  const ObjectPrototypeMembers: set<string> := {
    "constructor", "hasOwnProperty", "isPrototypeOf", "propertyIsEnumerable",
    "toString", "toLocaleString", "valueOf", "__proto__",
    "__defineGetter__", "__defineSetter__", "__lookupGetter__", "__lookupSetter__"
  }

  /** The lookup as written: an indexed read of an object literal, which
      also finds inherited members, followed by `|| 'slate'`. */
  function ColorAsWritten(t: string): (r: StyleValue)
    ensures forall i :: 0 <= i < |NodeColorTable| && NodeColorTable[i].0 == t ==> r == ColorName(NodeColorTable[i].1)
    ensures !IsKnownType(t) && t in ObjectPrototypeMembers ==> r == InheritedMember(t)
    ensures !IsKnownType(t) && t !in ObjectPrototypeMembers ==> r == ColorName(DefaultColor)
  {
    TableKeysDistinct();
    match Lookup(NodeColorTable, t)
    case Some(c) => if c != "" then ColorName(c) else ColorName(DefaultColor)
    case None => if t in ObjectPrototypeMembers then InheritedMember(t) else ColorName(DefaultColor)
  }

  /** The code as written and the own-entry lookup agree exactly on the types
      that are not names of inherited members. */
  lemma ColorAsWrittenAgreesOffPrototype(t: string)
    ensures ColorAsWritten(t) == ColorName(ColorOf(t)) <==> t !in ObjectPrototypeMembers
  {
    TableKeysDistinct();
    if t in ObjectPrototypeMembers {
      assert !IsKnownType(t);
    }
  }

  /** A type outside the table that does not get the fallback colour. */
  lemma ConstructorTypeMissesFallback()
    ensures !IsKnownType("constructor")
    ensures ColorAsWritten("constructor") == InheritedMember("constructor")
    ensures ColorOf("constructor") == DefaultColor
  {
  }
}
