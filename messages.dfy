/** The user-facing texts the commands share, and the display form of a person. */
module Messages {
  import opened Text
  import P = Person

  const MESSAGE_INVALID_PERSON_DISPLAYED_INDEX := "The person index provided is invalid"

  /** `MESSAGE_PERSONS_LISTED_OVERVIEW` filled in with a count. */
  function PersonsListedOverview(count: nat): string {
    NatToString(count) + " persons listed!"
  }

  /** `appendIfNotEmpty`: "; Field: value", or nothing for an empty value. */
  function FieldPart(fieldName: string, value: string): (r: string)
    ensures value == [] ==> r == []
    ensures value != [] ==> r == "; " + fieldName + ": " + value
  {
    if value == [] then [] else "; " + fieldName + ": " + value
  }

  /**
   * `format`: the name, then each non-empty optional field and the picture, each as
   * "; Field: value". The tag list that follows is not part of this model.
   */
  function Format(p: P.Person): (r: string)
    ensures |p.name| <= |r| && r[..|p.name|] == p.name
  {
    var head := p.name + FieldPart("Phone", P.FieldValue(p, P.PhoneField));
    assert (head + FieldsAfterPhone(p))[..|p.name|] == head[..|p.name|];
    head + FieldsAfterPhone(p)
  }

  /** A person with a phone shows it right after the name. */
  lemma FormatShowsPhone(p: P.Person)
    requires P.FieldValue(p, P.PhoneField) != []
    ensures StartsWith(Format(p), p.name + ("; Phone: " + P.FieldValue(p, P.PhoneField)))
  {
    FormatWithPhone(p);
    StartsWithConcat(p.name + ("; Phone: " + P.FieldValue(p, P.PhoneField)), FieldsAfterPhone(p));
  }

  /** With a phone, the display text is the name, the phone part, and the rest. */
  lemma FormatWithPhone(p: P.Person)
    requires P.FieldValue(p, P.PhoneField) != []
    ensures Format(p) == p.name + ("; Phone: " + P.FieldValue(p, P.PhoneField)) + FieldsAfterPhone(p)
  {
    assert FieldPart("Phone", P.FieldValue(p, P.PhoneField)) == "; Phone: " + P.FieldValue(p, P.PhoneField);
  }

  /** A concatenation starts with its first part. */
  lemma StartsWithConcat(a: string, b: string)
    ensures StartsWith(a + b, a)
  {
    assert (a + b)[..|a|] == a;
  }

  /** A person with only a name and a picture shows exactly those two. */
  lemma FormatOfNameAndImage(p: P.Person)
    requires P.FieldValue(p, P.PhoneField) == [] && P.FieldValue(p, P.EmailField) == []
            && P.FieldValue(p, P.AddressField) == [] && P.FieldValue(p, P.BirthdayField) == []
            && P.FieldValue(p, P.RelationshipField) == [] && P.FieldValue(p, P.NicknameField) == []
            && P.FieldValue(p, P.NotesField) == [] && p.imagePath.path != []
    ensures Format(p) == p.name + "; Image: " + p.imagePath.path
  {
    var image := "; Image: " + p.imagePath.path;
    var tail := FieldsAfterPhone(p);
    assert tail == image;
    assert FieldPart("Phone", P.FieldValue(p, P.PhoneField)) == [];
    assert Format(p) == p.name + [] + tail;
    assert p.name + [] + image == p.name + "; Image: " + p.imagePath.path;
  }

  /** The part of `Format` after the phone: the other optional fields and the picture. */
  function FieldsAfterPhone(p: P.Person): (r: string)
    ensures P.FieldValue(p, P.EmailField) == [] && P.FieldValue(p, P.AddressField) == []
            && P.FieldValue(p, P.BirthdayField) == [] && P.FieldValue(p, P.RelationshipField) == []
            && P.FieldValue(p, P.NicknameField) == [] && P.FieldValue(p, P.NotesField) == [] ==>
            r == FieldPart("Image", p.imagePath.path)
  {
    FieldPart("Email", P.FieldValue(p, P.EmailField))
    + FieldPart("Address", P.FieldValue(p, P.AddressField))
    + FieldPart("Birthday", P.FieldValue(p, P.BirthdayField))
    + FieldPart("Relationship", P.FieldValue(p, P.RelationshipField))
    + FieldPart("Nickname", P.FieldValue(p, P.NicknameField))
    + FieldPart("Notes", P.FieldValue(p, P.NotesField))
    + FieldPart("Image", p.imagePath.path)
  }
}
