/** The avatar initials computed from a user's name. `DashboardLayout` and the
    limitations screen use the same `getInitials` (lines 172-177 and 169-174
    of their files); the drawer's version trims the name first and has no
    fallback for the empty name. */
module Initials {
  import opened Strings

  /** The name the screens show when none is known (`'Usuário'`); the
      avatar of an empty name falls back to "U" instead. */
  const DefaultUserName := "Usuário"

  /** The first character of the first field and, when there are several,
      of the last field, upper-cased. */
  function InitialsOfFields(names: seq<string>): (r: string)
    requires |names| >= 1
    ensures |r| <= 2
    ensures forall i :: 0 <= i < |r| ==> !IsLower(r[i])
    ensures |names| == 1 && names[0] != "" ==> r == [UpperChar(names[0][0])]
    ensures |names| > 1 ==> r == ToUpper(FirstChar(names[0]) + FirstChar(names[|names| - 1]))
  {
    if |names| == 1 then ToUpper(FirstChar(names[0]))
    else ToUpper(FirstChar(names[0]) + FirstChar(names[|names| - 1]))
  }

  /** `getInitials` of the dashboard and limitations screens: "U" for the
      empty name; a name without a space gives its first character; otherwise
      the first characters of the text before the first space and after the
      last space, so middle words are ignored. Always upper case, at most two
      characters. */
  function GetInitials(name: string): (r: string)
    ensures |r| <= 2
    ensures forall i :: 0 <= i < |r| ==> !IsLower(r[i])
    ensures name == "" ==> r == "U"
    ensures name != "" && ' ' !in name ==> r == [UpperChar(name[0])]
    ensures ' ' in name ==>
      r == ToUpper(FirstChar(FirstField(name, ' ')) + FirstChar(LastField(name, ' ')))
  {
    if name == "" then "U"
    else
      if ' ' in name then
        InitialsOfWords(name);
        InitialsOfFields(Split(name, ' '))
      else
        InitialsOfOneWord(name);
        InitialsOfFields(Split(name, ' '))
  }

  /** A non-empty name without a space is one field: its first character. */
  lemma InitialsOfOneWord(name: string)
    requires name != "" && ' ' !in name
    ensures InitialsOfFields(Split(name, ' ')) == [UpperChar(name[0])]
  {
    var parts := Split(name, ' ');
    SplitHead(name, ' ');
    var i := IndexOf(name, ' ');
    assert i == |name|;
    assert parts[0] == name;
  }

  /** A name with a space: the initials of the text before the first and
      after the last space. */
  lemma InitialsOfWords(name: string)
    requires ' ' in name
    ensures InitialsOfFields(Split(name, ' ')) ==
      ToUpper(FirstChar(FirstField(name, ' ')) + FirstChar(LastField(name, ' ')))
  {
    SplitEnds(name, ' ');
  }

  /** The drawer's `getInitials`: the same rule applied to `name.trim()`, with
      no fallback, so an all-blank name gives "" and any other name a
      non-empty result. */
  function GetInitialsTrimmed(name: string): (r: string)
    ensures |r| <= 2
    ensures forall i :: 0 <= i < |r| ==> !IsLower(r[i])
    ensures IsBlank(name) <==> r == ""
    ensures !IsBlank(name) && ' ' !in Trim(name) ==> r == [UpperChar(Trim(name)[0])]
    ensures ' ' in Trim(name) ==>
      r == ToUpper(FirstChar(FirstField(Trim(name), ' ')) + FirstChar(LastField(Trim(name), ' ')))
  {
    var trimmed := Trim(name);
    if ' ' in trimmed then
      InitialsOfWords(trimmed);
      InitialsOfFields(Split(trimmed, ' '))
    else if trimmed != "" then
      InitialsOfOneWord(trimmed);
      InitialsOfFields(Split(trimmed, ' '))
    else
      SplitEnds(trimmed, ' ');
      InitialsOfFields(Split(trimmed, ' '))
  }

  /** On a name with no surrounding blanks the two versions agree. */
  lemma TrimmedAgreesOnTrimmedNames(name: string)
    requires name != "" && !IsSpace(name[0]) && !IsSpace(name[|name| - 1])
    ensures GetInitialsTrimmed(name) == GetInitials(name)
  {
    TrimPadded("", name, "");
    assert "" + name + "" == name;
  }
}
