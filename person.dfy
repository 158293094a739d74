/**
 * A contact. Identity is the name alone; full equality compares every field except the
 * picture. Fields whose validators are not part of this model (phone, email, address,
 * birthday, relationship) are kept as their text.
 */
module Person {
  import opened Wrappers
  import Nickname
  import Notes
  import Tag
  import ImagePath

  datatype Person = Person(
    name: string,
    phone: Option<string>,
    email: Option<string>,
    address: Option<string>,
    birthday: Option<string>,
    relationship: Option<string>,
    nickname: Option<Nickname.Nickname>,
    notes: Option<Notes.Notes>,
    tags: set<Tag.Tag>,
    imagePath: ImagePath.ImagePath)

  /** The fields a person may lack, each shown as "" by its `getXValue` when absent. */
  datatype OptionalField = PhoneField | EmailField | AddressField | BirthdayField
                         | RelationshipField | NicknameField | NotesField

  /**
   * The constructor: every field is kept as given, except that a missing picture is replaced
   * by the default one.
   */
  function Create(name: string, phone: Option<string>, email: Option<string>, address: Option<string>,
                  birthday: Option<string>, relationship: Option<string>,
                  nickname: Option<Nickname.Nickname>, notes: Option<Notes.Notes>,
                  imagePath: Option<ImagePath.ImagePath>, tags: set<Tag.Tag>): (p: Person)
    ensures p.imagePath == (if imagePath.Some? then imagePath.value else ImagePath.DEFAULT)
    ensures imagePath.Some? ==> p.imagePath == imagePath.value
    ensures p.name == name && p.tags == tags
    ensures p.phone == phone && p.email == email && p.address == address
    ensures p.birthday == birthday && p.relationship == relationship
    ensures p.nickname == nickname && p.notes == notes
  {
    Person(name, phone, email, address, birthday, relationship, nickname, notes, tags,
           imagePath.GetOr(ImagePath.DEFAULT))
  }

  /** The text of an optional field, when the person has it. */
  function FieldText(p: Person, f: OptionalField): Option<string> {
    match f
    case PhoneField => p.phone
    case EmailField => p.email
    case AddressField => p.address
    case BirthdayField => p.birthday
    case RelationshipField => p.relationship
    case NicknameField => if p.nickname.Some? then Some(p.nickname.value.nickname) else None
    case NotesField => if p.notes.Some? then Some(p.notes.value.value) else None
  }

  /** `getPhoneValue` .. `getNotesValue`: the field's text, or "" when the field is absent. */
  function FieldValue(p: Person, f: OptionalField): (r: string)
    ensures FieldText(p, f).None? ==> r == ""
    ensures FieldText(p, f).Some? ==> r == FieldText(p, f).value
  {
    FieldText(p, f).GetOr("")
  }

  /** `isSamePerson`: the weak notion of identity used to reject duplicates. */
  predicate IsSamePerson(p: Person, q: Person) {
    p.name == q.name
  }

  /** `equals`: every field agrees except the picture. */
  predicate Equals(p: Person, q: Person)
    ensures Equals(p, q) <==> p.(imagePath := q.imagePath) == q
  {
    p.name == q.name && p.phone == q.phone && p.email == q.email && p.address == q.address
    && p.birthday == q.birthday && p.relationship == q.relationship
    && p.nickname == q.nickname && p.notes == q.notes && p.tags == q.tags
  }

  /** Full equality is an equivalence, is blind to the picture, and implies identity. */
  lemma EqualsProperties(p: Person, q: Person, r: Person, img: ImagePath.ImagePath)
    ensures Equals(p, p)
    ensures Equals(p, q) ==> Equals(q, p)
    ensures Equals(p, q) && Equals(q, r) ==> Equals(p, r)
    ensures Equals(p, p.(imagePath := img))
    ensures Equals(p, q) ==> IsSamePerson(p, q)
  {
  }

  /** `toCommandSummary`: a person is summarised by their name, which identifies them. */
  function CommandSummary(p: Person): (r: string)
    ensures r == p.name
  {
    p.name
  }

  /** Two persons have the same summary exactly when they are the same person. */
  lemma SummaryIdentifies(p: Person, q: Person)
    ensures CommandSummary(p) == CommandSummary(q) <==> IsSamePerson(p, q)
  {
  }
}
