/** The records of src/types.ts. */
module Types {
  import opened Wrappers

  /** The four MODX element classes; their names are also the API's collection names. */
  datatype ElementType = ModChunk | ModSnippet | ModTemplate | ModPlugin

  /** `ModElementType`, whose `null` member is None (the type slot of a node that has none). */
  type ModElementType = Option<ElementType>

  /** One configured site, as stored in sites.json. */
  datatype SiteConfig = SiteConfig(
    name: string,
    baseUrl: string,
    apiUrl: string,
    elements: Option<seq<ElementType>>,
    tokenKey: Option<string>)

  /** An element as the remote API returns it. */
  datatype ModElement = ModElement(id: int, name: string, content: Option<string>, elementType: string)

  /** The literal token of each type. */
  function TypeName(t: ElementType): (r: string)
    ensures |r| > 3 && r[..3] == "mod" && '/' !in r
  {
    match t
    case ModChunk => "modChunk"
    case ModSnippet => "modSnippet"
    case ModTemplate => "modTemplate"
    case ModPlugin => "modPlugin"
  }

  /** The text a possibly-null type takes inside a template literal. */
  function TypeText(t: ModElementType): (r: string)
    ensures t.None? ==> r == "null"
    ensures t.Some? ==> r == TypeName(t.value)
    ensures r != [] && '/' !in r
  {
    match t
    case None => "null"
    case Some(e) => TypeName(e)
  }

  /** Distinct types have distinct names, so a path segment names one type. */
  lemma TypeNameInjective(a: ElementType, b: ElementType)
    requires TypeName(a) == TypeName(b)
    ensures a == b
  {
  }

  /** The list used when a site does not say which types it shows. */
  const DefaultElementTypes: seq<ElementType> := [ModSnippet, ModChunk, ModTemplate, ModPlugin]
}
