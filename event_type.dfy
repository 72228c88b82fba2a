/**
  The event-type tag: a short validated identifier naming the kind of a change
  event. A tag is built either directly from a string (which may be null) or
  from the name of an event type, which must end in "Event".

  The private constructor throws on bad input; here the thrown argument error
  becomes a `Rejected` value carrying which check failed.
 */
module EventTypes {
  import opened Wrappers

  /** The longest accepted tag. */
  const MaxLength: nat := 50

  /** The suffix every event type name carries. */
  const EventSuffix: string := "Event"

  /**
    The characters the .NET pattern `\s` matches: the control characters
    U+0009 to U+000D, U+0085, and the Unicode separators (categories Zs, Zl, Zp).
   */
  predicate IsWhitespace(c: char) {
    var n := c as int;
    || (0x09 <= n <= 0x0D)
    || n == 0x20 || n == 0x85 || n == 0xA0 || n == 0x1680
    || (0x2000 <= n <= 0x200A)
    || n == 0x2028 || n == 0x2029 || n == 0x202F || n == 0x205F || n == 0x3000
  }

  /** Word characters (the pattern `\w`), restricted to ASCII: letters, digits and the underscore. */
  predicate IsWordChar(c: char) {
    ('a' <= c <= 'z') || ('A' <= c <= 'Z') || ('0' <= c <= '9') || c == '_'
  }

  /** A whitespace character is never a word character, so "only word characters" excludes whitespace too. */
  lemma WhitespaceIsNotWord(c: char)
    ensures IsWhitespace(c) ==> !IsWordChar(c)
  {
  }

  /**
    The number of UTF-16 code units of a character: the .NET `string.Length`
    counts a character above U+FFFF as a surrogate pair.
   */
  function CodeUnits(c: char): (n: nat)
    ensures n == 1 || n == 2
    ensures n == 2 <==> c as int > 0xFFFF
  {
    if c as int > 0xFFFF then 2 else 1
  }

  /** `string.Length`: the length of a string in UTF-16 code units. */
  function Utf16Length(s: string): (n: nat)
    ensures |s| <= n <= 2 * |s|
  {
    if s == [] then 0 else CodeUnits(s[0]) + Utf16Length(s[1..])
  }

  /** A string of ASCII word characters has one code unit per character. */
  lemma {:induction false} WordUtf16Length(s: string)
    ensures (forall i :: 0 <= i < |s| ==> IsWordChar(s[i])) ==> Utf16Length(s) == |s|
  {
    if s != [] {
      WordUtf16Length(s[1..]);
      assert forall i :: 1 <= i < |s| ==> s[1..][i - 1] == s[i];
    }
  }

  /** Appending a character adds its code units to the length. */
  lemma {:induction false} Utf16LengthAppend(s: string, c: char)
    ensures Utf16Length(s + [c]) == Utf16Length(s) + CodeUnits(c)
  {
    if s == [] {
      assert [c][1..] == [];
    } else {
      assert (s + [c])[1..] == s[1..] + [c];
      Utf16LengthAppend(s[1..], c);
    }
  }

  /** What an accepted tag looks like, stated without reference to the order of the checks. */
  ghost predicate IsTagValue(s: string) {
    1 <= |s| <= MaxLength && forall i :: 0 <= i < |s| ==> IsWordChar(s[i])
  }

  datatype Tag = Tag(value: string)

  /** A tag whose value satisfies the validation rules; `Validate` returns one for every such value. */
  type EventType = t: Tag | IsTagValue(t.value) witness Tag("A")

  /** Why a tag was rejected, one variant per argument error the source throws. */
  datatype TagError =
    | MissingValue
    | TooLong
    | ContainsWhitespace
    | ContainsNonWordCharacter
    | MissingEventSuffix(typeName: string)

  datatype TagResult = Accepted(tag: EventType) | Rejected(error: TagError)

  const ErrorHead := "Event types "
  const SuffixMessageHead := "The type name "
  const SuffixMessageTail := " is invalid for an event. Event type names must end with Event"

  /**
    The message of the argument error thrown for each rejection. The message
    for a missing suffix embeds the offending type name, which can be read
    back from it.
   */
  function Message(e: TagError): (m: string)
    ensures e.MissingEventSuffix? ==>
              && |m| == |SuffixMessageHead| + |e.typeName| + |SuffixMessageTail|
              && m[|SuffixMessageHead|..|m| - |SuffixMessageTail|] == e.typeName
  {
    match e
    case MissingValue => ErrorHead + "must have a value"
    case TooLong => ErrorHead + "cannot be longer than 50 characters"
    case ContainsWhitespace => ErrorHead + "cannot contain whitespace characters"
    case ContainsNonWordCharacter => ErrorHead + "cannot contain non word characters"
    case MissingEventSuffix(name) => SuffixMessageHead + name + SuffixMessageTail
  }

  /** Different rejections carry different messages, so the message tells which check failed. */
  lemma MessagesIdentifyErrors(a: TagError, b: TagError)
    ensures Message(a) == Message(b) <==> a == b
  {
    if a.MissingEventSuffix? && b.MissingEventSuffix? {
      // the type name is read back from the message
    } else {
      // the four fixed messages have four different lengths, all shorter than any message about a type name
      assert |ErrorHead| == 12 && |SuffixMessageHead| + |SuffixMessageTail| == 76;
    }
  }

  /** `Regex("\\s").IsMatch`: a left-to-right scan for a whitespace character. */
  function HasWhitespace(s: string): (r: bool)
    ensures r <==> exists i :: 0 <= i < |s| && IsWhitespace(s[i])
  {
    if s == [] then false
    else IsWhitespace(s[0]) || HasWhitespace(s[1..])
  }

  /** `Regex("\\W").IsMatch`: a left-to-right scan for a character that is not a word character. */
  function HasNonWordCharacter(s: string): (r: bool)
    ensures r <==> exists i :: 0 <= i < |s| && !IsWordChar(s[i])
  {
    if s == [] then false
    else !IsWordChar(s[0]) || HasNonWordCharacter(s[1..])
  }

  /**
    The private constructor: the checks run in the order empty (or null),
    length, whitespace, non-word, and the first failing one decides the
    error. An accepted value is stored unchanged.
   */
  function Validate(value: Option<string>): (r: TagResult)
    ensures r.Accepted? <==> value.Some? && IsTagValue(value.value)
    ensures r.Accepted? ==> r.tag.value == value.value
    ensures r == Rejected(MissingValue) <==> value.None? || value.value == ""
    ensures r == Rejected(TooLong) <==> value.Some? && Utf16Length(value.value) > MaxLength
    ensures r == Rejected(ContainsWhitespace) <==>
              && value.Some? && value.value != "" && Utf16Length(value.value) <= MaxLength
              && exists i :: 0 <= i < |value.value| && IsWhitespace(value.value[i])
    ensures r == Rejected(ContainsNonWordCharacter) <==>
              && value.Some? && value.value != "" && Utf16Length(value.value) <= MaxLength
              && (forall i :: 0 <= i < |value.value| ==> !IsWhitespace(value.value[i]))
              && exists i :: 0 <= i < |value.value| && !IsWordChar(value.value[i])
    ensures r.Rejected? ==> !r.error.MissingEventSuffix?
  {
    match value
    case None => Rejected(MissingValue)
    case Some(s) =>
      WordUtf16Length(s);
      if s == "" then Rejected(MissingValue)
      else if Utf16Length(s) > MaxLength then Rejected(TooLong)
      else if HasWhitespace(s) then Rejected(ContainsWhitespace)
      else if HasNonWordCharacter(s) then Rejected(ContainsNonWordCharacter)
      else Accepted(Tag(s))
  }

  /** The implicit conversion from a tag to a string. */
  function ToString(t: EventType): (s: string)
    ensures IsTagValue(s)
  {
    t.value
  }

  /** The implicit conversion from a string to a tag: the private constructor. */
  function FromString(s: string): (r: TagResult)
    ensures r.Accepted? <==> IsTagValue(s)
  {
    Validate(Some(s))
  }

  /** Ordinal suffix test. */
  predicate EndsWith(s: string, suffix: string) {
    |suffix| <= |s| && s[|s| - |suffix|..] == suffix
  }

  /**
    The implicit conversion from an event type (given by its name): the name
    must end in "Event"; the last five characters are removed and the rest
    is validated like any other tag.
   */
  function FromTypeName(name: string): (r: TagResult)
    ensures !EndsWith(name, EventSuffix) ==> r == Rejected(MissingEventSuffix(name))
    ensures EndsWith(name, EventSuffix) ==> r == FromString(name[..|name| - 5])
  {
    if !EndsWith(name, EventSuffix) then Rejected(MissingEventSuffix(name))
    else Validate(Some(name[..|name| - 5]))
  }

  /** A string that passes validation comes back out of the tag unchanged. */
  lemma StringRoundTrip(s: string)
    requires IsTagValue(s)
    ensures FromString(s).Accepted? && ToString(FromString(s).tag) == s
  {
  }

  /** Every tag converts to a string that validates back to the same tag. */
  lemma TagRoundTrip(t: EventType)
    ensures FromString(ToString(t)) == Accepted(t)
  {
  }

  /** Tags compare by value: two tags are equal exactly when their strings are. */
  lemma TagEquality(a: EventType, b: EventType)
    ensures a == b <==> ToString(a) == ToString(b)
  {
  }

  /** Appending the suffix to a tag gives a type name that converts back to that tag. */
  lemma {:induction false} TypeNameRoundTrip(t: EventType)
    ensures FromTypeName(t.value + EventSuffix) == Accepted(t)
  {
    var name := t.value + EventSuffix;
    assert name[|name| - |EventSuffix|..] == EventSuffix;
    assert name[..|name| - 5] == t.value;
  }

  /** A type name ending in "Event" is validated as its stem. */
  lemma {:induction false} TypeNameStem(stem: string)
    ensures FromTypeName(stem + EventSuffix) == FromString(stem)
  {
    var name := stem + EventSuffix;
    assert name[|name| - |EventSuffix|..] == EventSuffix;
    assert name[..|name| - 5] == stem;
  }

  /** The bare name "Event" strips to the empty string and is rejected as having no value. */
  lemma BareEventRejected()
    ensures FromTypeName("Event") == Rejected(MissingValue)
  {
    TypeNameStem("");
  }

  /**
    A character above U+FFFF counts two code units: forty-nine word
    characters followed by one such character are too long, although the
    string holds only fifty characters.
   */
  lemma SurrogatePairCountsTwice(s: string, c: char)
    requires |s| == MaxLength - 1 && forall i :: 0 <= i < |s| ==> IsWordChar(s[i])
    requires c as int > 0xFFFF
    ensures |s + [c]| == MaxLength
    ensures FromString(s + [c]) == Rejected(TooLong)
  {
    WordUtf16Length(s);
    Utf16LengthAppend(s, c);
  }

  /** A fifty-character word is the longest accepted tag; one more character is too long. */
  lemma LengthBoundary(s: string, c: char)
    requires |s| == MaxLength && forall i :: 0 <= i < |s| ==> IsWordChar(s[i])
    ensures FromString(s).Accepted?
    ensures FromString(s + [c]) == Rejected(TooLong)
  {
  }
}
