/** The destinations a query names, and the registration facts about a
    stored schema that the router and the compiler consult. */
module Destinations {
  import opened Wrappers
  import opened Registry

  /** One destination after Orm::objectify: the class it names (`class`),
      an optional alias (`alias`), optional literal inputs as property/value
      pairs in their array order (`input`), and whether `output` is set and,
      if so, whether its value is truthy. Input values are kept as the text
      that ends up in the SQL. */
  datatype Dest = Dest(
    cls: Option<string>,
    alias: Option<string>,
    input: Option<seq<(string, string)>>,
    output: Option<bool>)

  /** `$dest->class`, where a missing class reads as the empty string. */
  function ClassOf(d: Dest): string {
    if d.cls.Some? then d.cls.value else ""
  }

  /** Orm::isRegisteredClass against the stored schema. */
  predicate IsClass(st: SchemaState, cls: string) { cls in st.classes }

  /** Orm::isRegisteredIRelationship against the stored schema. */
  predicate IsIRelationship(st: SchemaState, cls: string) { cls in st.irelationships }
}
