/** JSON documents and the recursive reading of what a credential scan looks for in them. */
module CredentialTree {
  datatype Json =
    | Null
    | Bool(value: bool)
    | Number(digits: string)
    | Str(text: string)
    | Arr(items: seq<Json>)
    | Obj(fields: seq<Member>)

  datatype Member = Member(name: string, value: Json)

  datatype Parsed = NotJson | IsJson(json: Json)

  /** What the scan takes from libraries: pattern matching, parsing, and Unicode case mapping. */
  datatype Library = Library(plain: string -> bool, parse: string -> Parsed, lower: string -> string, folds: string -> bool)

  const MAX_FRAMES := 128
  const MAX_EMBEDDED := 4

  /** Drop underscores and hyphens. */
  function Strip(key: string): string
  {
    if key == "" then ""
    else (if key[0] == '_' || key[0] == '-' then "" else [key[0]]) + Strip(key[1..])
  }

  predicate CredentialField(m: Library, key: string)
  {
    m.lower(Strip(key)) in {"authorization", "apikey", "accesstoken", "refreshtoken", "clientsecret", "privatekey",
                            "token", "secret", "password"}
  }

  /** strings.EqualFold(name, "authorization"), which no empty name satisfies. */
  predicate IsAuthorization(m: Library, name: string)
  {
    name != "" && m.folds(name)
  }

  /** A field whose value gives it away; authorization does so only as a string. */
  predicate Credential(m: Library, name: string, isString: bool)
  {
    CredentialField(m, name) && (m.lower(name) != "authorization" || isString)
  }

  // ------------------------------------------------------------------- recursion over the tree

  datatype Context = Top | Item(auth: bool) | Field(name: string)

  /** What the place of a value says about it, before looking inside. */
  predicate Flagged(m: Library, v: Json, c: Context)
  {
    match c
    case Top => false
    case Item(auth) => auth && v.Str? && v.text != ""
    case Field(name) => Credential(m, name, v.Str?) && !v.Null? && v != Str("")
  }

  predicate ArrayIsAuthorization(m: Library, c: Context)
  {
    (c.Item? && c.auth) || (c.Field? && IsAuthorization(m, c.name))
  }

  predicate SensitiveText(m: Library, s: string, embedded: nat)
    decreases MAX_EMBEDDED - embedded, 0
  {
    m.plain(s)
    || (m.parse(s).IsJson? && (embedded >= MAX_EMBEDDED || Sensitive(m, m.parse(s).json, Top, 0, embedded + 1)))
  }

  /** A value below so many frames and so many levels of embedding. */
  predicate Sensitive(m: Library, v: Json, c: Context, depth: nat, embedded: nat)
    decreases MAX_EMBEDDED - embedded, 1, v
  {
    Flagged(m, v, c)
    || match v
       case Str(s) => SensitiveText(m, s, embedded)
       case Arr(items) => depth + 1 > MAX_FRAMES || AnyItem(m, items, ArrayIsAuthorization(m, c), depth + 1, embedded)
       case Obj(fields) => depth + 1 > MAX_FRAMES || AnyField(m, fields, depth + 1, embedded)
       case _ => false
  }

  predicate AnyItem(m: Library, items: seq<Json>, auth: bool, depth: nat, embedded: nat)
    decreases MAX_EMBEDDED - embedded, 1, items
  {
    items != [] && (Sensitive(m, items[0], Item(auth), depth, embedded) || AnyItem(m, items[1..], auth, depth, embedded))
  }

  predicate AnyField(m: Library, fields: seq<Member>, depth: nat, embedded: nat)
    decreases MAX_EMBEDDED - embedded, 1, fields
  {
    fields != []
    && (Sensitive(m, fields[0].value, Field(fields[0].name), depth, embedded) || AnyField(m, fields[1..], depth, embedded))
  }
}
