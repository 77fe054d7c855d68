/** The fields of a message definition, as the generated message classes describe them. */
module MessageFields {
  import opened Optional

  datatype FieldType = FieldType(pkg: string, typ: string, isPrimitive: bool, stringUpperBound: Option<nat>,
                                 isArray: bool, isFixedSize: bool, isUpperBound: bool, arraySize: Option<nat>)

  datatype Field = Field(name: string, typ: FieldType)

  /** Fields whose names start with an underscore are internal. */
  predicate IsHidden(name: string) {
    name != "" && name[0] == '_'
  }

  lemma HiddenIff(name: string)
    ensures IsHidden(name) <==> exists rest: string :: name == ['_'] + rest
  {
    if IsHidden(name) {
      assert name == ['_'] + name[1..];
    }
  }
}
