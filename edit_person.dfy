/**
 * The patch behind `edit`: which fields an edit supplies, which it asks to remove, and how
 * the edited person is built from the original.
 */
module EditPerson {
  import opened Wrappers
  import P = Person
  import Nickname
  import Notes
  import Tag
  import ImagePath

  /** The command-line prefixes; `toRemoveFields` is a list of them. */
  datatype Prefix = NamePrefix | PhonePrefix | EmailPrefix | AddressPrefix | TagPrefix
                  | BirthdayPrefix | RelationshipPrefix | NicknamePrefix | NotesPrefix
                  | SortPrefix | ImagePrefix

  /** The prefix that asks for an optional field to be removed. */
  function RemovalPrefix(f: P.OptionalField): Prefix {
    match f
    case PhoneField => PhonePrefix
    case EmailField => EmailPrefix
    case AddressField => AddressPrefix
    case BirthdayField => BirthdayPrefix
    case RelationshipField => RelationshipPrefix
    case NicknameField => NicknamePrefix
    case NotesField => NotesPrefix
  }

  /** Optional `Optional` fields: `None` is `null`, `Some(None)` is `Optional.empty()`. */
  function Flatten<T>(o: Option<Option<T>>): (r: Option<T>)
    ensures r.Some? <==> o.Some? && o.value.Some?
    ensures r.Some? ==> r.value == o.value.value
  {
    if o.Some? then o.value else None
  }

  /**
   * The contents of an `EditPersonDescriptor`. A field that was never set is `None`; the
   * picture is never `null`, so an absent picture is `None` as well.
   */
  datatype Patch = Patch(
    name: Option<string>,
    phone: Option<Option<string>>,
    email: Option<Option<string>>,
    address: Option<Option<string>>,
    birthday: Option<Option<string>>,
    relationship: Option<Option<string>>,
    nickname: Option<Option<Nickname.Nickname>>,
    notes: Option<Option<Notes.Notes>>,
    imagePath: Option<ImagePath.ImagePath>,
    tags: Option<set<Tag.Tag>>)
  {
    /** `isAnyFieldEdited`: some field other than the picture was set, or a picture is given. */
    predicate IsAnyFieldEdited() {
      name.Some? || phone.Some? || email.Some? || address.Some? || birthday.Some?
      || relationship.Some? || nickname.Some? || notes.Some? || tags.Some? || imagePath.Some?
    }

    /** `getPhone` .. `getNotes` as text: the value the patch supplies for an optional field. */
    function Given(f: P.OptionalField): Option<string> {
      match f
      case PhoneField => Flatten(phone)
      case EmailField => Flatten(email)
      case AddressField => Flatten(address)
      case BirthdayField => Flatten(birthday)
      case RelationshipField => Flatten(relationship)
      case NicknameField =>
        var n := Flatten(nickname); if n.Some? then Some(n.value.nickname) else None
      case NotesField =>
        var n := Flatten(notes); if n.Some? then Some(n.value.value) else None
    }
  }

  /** The patch of a fresh descriptor: nothing set. */
  const EMPTY: Patch := Patch(None, None, None, None, None, None, None, None, None, None)

  /**
   * `processOptionalField`: a supplied value wins; failing that, a removal empties the
   * field; failing that, the existing value stays.
   */
  function ProcessOptionalField<T>(editDescriptorValue: Option<T>, existingValue: Option<T>,
                                   shouldRemove: bool): (r: Option<T>)
    ensures editDescriptorValue.Some? ==> r == editDescriptorValue
    ensures r.Some? <==> editDescriptorValue.Some? || (!shouldRemove && existingValue.Some?)
    ensures r.Some? ==> r == editDescriptorValue || r == existingValue
  {
    if editDescriptorValue.Some? then editDescriptorValue
    else if shouldRemove then None
    else existingValue
  }

  /**
   * `createEditedPerson`: name, tags and picture come from the patch when it has them and
   * from the original otherwise; every optional field goes through `ProcessOptionalField`
   * with its removal prefix.
   */
  function CreateEditedPerson(personToEdit: P.Person, patch: Patch, toRemoveFields: seq<Prefix>): (r: P.Person)
    ensures r.name == (if patch.name.Some? then patch.name.value else personToEdit.name)
    ensures r.tags == (if patch.tags.Some? then patch.tags.value else personToEdit.tags)
    ensures r.imagePath == (if patch.imagePath.Some? then patch.imagePath.value else personToEdit.imagePath)
    ensures patch.Given(P.PhoneField).Some? ==> r.phone == patch.Given(P.PhoneField)
    ensures patch.Given(P.PhoneField).None? && PhonePrefix in toRemoveFields ==> r.phone == None
    ensures patch.Given(P.PhoneField).None? && PhonePrefix !in toRemoveFields ==> r.phone == personToEdit.phone
  {
    P.Create(
      patch.name.GetOr(personToEdit.name),
      ProcessOptionalField(Flatten(patch.phone), personToEdit.phone, PhonePrefix in toRemoveFields),
      ProcessOptionalField(Flatten(patch.email), personToEdit.email, EmailPrefix in toRemoveFields),
      ProcessOptionalField(Flatten(patch.address), personToEdit.address, AddressPrefix in toRemoveFields),
      ProcessOptionalField(Flatten(patch.birthday), personToEdit.birthday, BirthdayPrefix in toRemoveFields),
      ProcessOptionalField(Flatten(patch.relationship), personToEdit.relationship,
                           RelationshipPrefix in toRemoveFields),
      ProcessOptionalField(Flatten(patch.nickname), personToEdit.nickname, NicknamePrefix in toRemoveFields),
      ProcessOptionalField(Flatten(patch.notes), personToEdit.notes, NotesPrefix in toRemoveFields),
      if patch.imagePath.Some? then patch.imagePath else Some(personToEdit.imagePath),
      patch.tags.GetOr(personToEdit.tags))
  }

  /**
   * Each optional field of the edited person is the supplied value if there is one, is
   * absent if its removal was asked for, and is the original's otherwise.
   */
  lemma EditedOptionalField(personToEdit: P.Person, patch: Patch, toRemoveFields: seq<Prefix>, f: P.OptionalField)
    ensures var r := CreateEditedPerson(personToEdit, patch, toRemoveFields);
      && (patch.Given(f).Some? ==> P.FieldText(r, f) == patch.Given(f))
      && (patch.Given(f).None? && RemovalPrefix(f) in toRemoveFields ==> P.FieldText(r, f) == None)
      && (patch.Given(f).None? && RemovalPrefix(f) !in toRemoveFields
          ==> P.FieldText(r, f) == P.FieldText(personToEdit, f))
  {
  }

  /**
   * Name, tags and picture: the patch's value when it has one (an empty tag set included),
   * the original's otherwise. The name alone decides whether the result is the same person.
   */
  lemma EditedRequiredFields(personToEdit: P.Person, patch: Patch, toRemoveFields: seq<Prefix>)
    ensures var r := CreateEditedPerson(personToEdit, patch, toRemoveFields);
      && (patch.name.Some? ==> r.name == patch.name.value)
      && (patch.name.None? ==> P.IsSamePerson(r, personToEdit))
      && (P.IsSamePerson(r, personToEdit) <==> patch.name.None? || patch.name.value == personToEdit.name)
      && (patch.tags.Some? ==> r.tags == patch.tags.value)
      && (patch.tags.None? ==> r.tags == personToEdit.tags)
      && (patch.imagePath.Some? ==> r.imagePath == patch.imagePath.value)
      && (patch.imagePath.None? ==> r.imagePath == personToEdit.imagePath)
  {
  }

  /** A patch that sets nothing, with no removals, gives back the original person exactly. */
  lemma EmptyPatchKeepsPerson(personToEdit: P.Person, patch: Patch, toRemoveFields: seq<Prefix>)
    requires !patch.IsAnyFieldEdited()
    requires forall f :: RemovalPrefix(f) !in toRemoveFields
    ensures CreateEditedPerson(personToEdit, patch, toRemoveFields) == personToEdit
  {
    assert RemovalPrefix(P.PhoneField) !in toRemoveFields;
    assert RemovalPrefix(P.EmailField) !in toRemoveFields;
    assert RemovalPrefix(P.AddressField) !in toRemoveFields;
    assert RemovalPrefix(P.BirthdayField) !in toRemoveFields;
    assert RemovalPrefix(P.RelationshipField) !in toRemoveFields;
    assert RemovalPrefix(P.NicknameField) !in toRemoveFields;
    assert RemovalPrefix(P.NotesField) !in toRemoveFields;
  }

  /**
   * A patch that sets a field to `Optional.empty()` counts as an edit, yet supplies no
   * value: without a removal prefix the field is kept.
   */
  lemma EmptyOptionalIsEditButKeeps(personToEdit: P.Person)
    ensures EMPTY.(phone := Some(None)).IsAnyFieldEdited()
    ensures CreateEditedPerson(personToEdit, EMPTY.(phone := Some(None)), []) == personToEdit
  {
  }

  /**
   * Changing only the picture gives a person that is `equals` to the original, because
   * equality ignores the picture.
   */
  lemma PictureOnlyEditIsEqual(personToEdit: P.Person, img: ImagePath.ImagePath)
    ensures P.Equals(CreateEditedPerson(personToEdit, EMPTY.(imagePath := Some(img)), []), personToEdit)
    ensures CreateEditedPerson(personToEdit, EMPTY.(imagePath := Some(img)), []).imagePath == img
  {
  }

  /**
   * The mutable descriptor the parser fills in. Its setters each change one field; the
   * picture setter turns `null` into `Optional.empty()`, and the tag setter copies.
   */
  class EditPersonDescriptor {
    var name: Option<string>
    var phone: Option<Option<string>>
    var email: Option<Option<string>>
    var address: Option<Option<string>>
    var birthday: Option<Option<string>>
    var relationship: Option<Option<string>>
    var nickname: Option<Option<Nickname.Nickname>>
    var notes: Option<Option<Notes.Notes>>
    var imagePath: Option<ImagePath.ImagePath>
    var tags: Option<set<Tag.Tag>>

    /** The descriptor's contents as a value. */
    function Value(): Patch
      reads this
    {
      Patch(name, phone, email, address, birthday, relationship, nickname, notes, imagePath, tags)
    }

    /** A descriptor that sets nothing. */
    constructor ()
      ensures Value() == EMPTY
    {
      name, phone, email, address, birthday, relationship := None, None, None, None, None, None;
      nickname, notes, imagePath, tags := None, None, None, None;
    }

    /** The copy constructor: a descriptor with the same contents, sharing nothing. */
    constructor Copy(toCopy: EditPersonDescriptor)
      ensures Value() == toCopy.Value()
    {
      name, phone, email, address, birthday := toCopy.name, toCopy.phone, toCopy.email, toCopy.address, toCopy.birthday;
      relationship, nickname, notes := toCopy.relationship, toCopy.nickname, toCopy.notes;
      imagePath, tags := toCopy.imagePath, toCopy.tags;
    }

    method SetName(name: Option<string>)
      modifies this
      ensures Value() == old(Value()).(name := name)
    {
      this.name := name;
    }

    method SetPhone(phone: Option<Option<string>>)
      modifies this
      ensures Value() == old(Value()).(phone := phone)
    {
      this.phone := phone;
    }

    method SetEmail(email: Option<Option<string>>)
      modifies this
      ensures Value() == old(Value()).(email := email)
    {
      this.email := email;
    }

    method SetAddress(address: Option<Option<string>>)
      modifies this
      ensures Value() == old(Value()).(address := address)
    {
      this.address := address;
    }

    method SetBirthday(birthday: Option<Option<string>>)
      modifies this
      ensures Value() == old(Value()).(birthday := birthday)
    {
      this.birthday := birthday;
    }

    method SetRelationship(relationship: Option<Option<string>>)
      modifies this
      ensures Value() == old(Value()).(relationship := relationship)
    {
      this.relationship := relationship;
    }

    method SetNickname(nickname: Option<Option<Nickname.Nickname>>)
      modifies this
      ensures Value() == old(Value()).(nickname := nickname)
    {
      this.nickname := nickname;
    }

    method SetNotes(notes: Option<Option<Notes.Notes>>)
      modifies this
      ensures Value() == old(Value()).(notes := notes)
    {
      this.notes := notes;
    }

    /** `setImagePath`: `null` and `Optional.empty()` both leave no picture. */
    method SetImagePath(imagePath: Option<Option<ImagePath.ImagePath>>)
      modifies this
      ensures Value() == old(Value()).(imagePath := Flatten(imagePath))
    {
      this.imagePath := Flatten(imagePath);
    }

    method SetTags(tags: Option<set<Tag.Tag>>)
      modifies this
      ensures Value() == old(Value()).(tags := tags)
    {
      this.tags := tags;
    }

    /** `equals`: field-by-field equality of the contents. */
    predicate Equals(other: EditPersonDescriptor)
      reads this, other
    {
      Value() == other.Value()
    }
  }
}
