/** Default avatars: an SVG circle in one of twelve light colours chosen by the
    username's length, showing the username's initials, returned as a base64
    data URL. Upper-casing is restricted to ASCII letters; the base64 encoder
    (`btoa`, which throws on characters outside Latin-1) is a parameter
    answering None where it throws. */
module Avatar {
  import opened Wrappers
  import opened Text

  const AvatarColors: seq<string> := [
    "#FFB3BA", "#BAFFC9", "#BAE1FF", "#FFFFBA", "#FFB3F7", "#B3FFE6",
    "#FFD4B3", "#E6B3FF", "#B3D4FF", "#FFE6B3", "#B3FFB3", "#F7B3FF"
  ]

  const DataUrlPrefix: string := "data:image/svg+xml;base64,"

  /** `word.charAt(0).toUpperCase()`: empty for an empty word. */
  function FirstLetter(word: string): (r: string)
    ensures word == [] ==> r == []
    ensures word != [] ==> r == [AsciiUpper(word[0])]
  {
    if word == [] then [] else [AsciiUpper(word[0])]
  }

  /** `map(first letter).slice(0, 2).join('')` over the words. */
  function FirstTwoLetters(words: seq<string>): (r: string)
    ensures |r| <= 2
    ensures forall i :: 0 <= i < |r| ==> !('a' <= r[i] <= 'z')
  {
    if |words| == 0 then []
    else if |words| == 1 then FirstLetter(words[0])
    else FirstLetter(words[0]) + FirstLetter(words[1])
  }

  /** The initials avatars show for a username. */
  function Initials(username: string): string {
    FirstTwoLetters(Split(username, ' '))
  }

  /** For a name made of space-free words, the initials are the first letters
      of its first two words (an empty word contributing nothing). */
  lemma InitialsOfWords(words: seq<string>)
    requires |words| >= 1
    requires forall i :: 0 <= i < |words| ==> ' ' !in words[i]
    ensures Initials(Join(words, ' ')) ==
              FirstLetter(words[0]) + (if |words| > 1 then FirstLetter(words[1]) else [])
  {
    SplitJoin(words, ' ');
  }

  /** A first and a last name give their two capital letters. */
  lemma InitialsOfFullName(first: string, last: string)
    requires ' ' !in first && ' ' !in last && first != [] && last != []
    ensures Initials(first + " " + last) == [AsciiUpper(first[0]), AsciiUpper(last[0])]
  {
    assert first + " " + last == Join([first, last], ' ');
    InitialsOfWords([first, last]);
  }

  /** JavaScript's `length`: the number of UTF-16 code units, two for each
      character outside the Basic Multilingual Plane. */
  function Utf16Length(s: string): (n: nat)
    ensures |s| <= n <= 2 * |s|
  {
    if s == [] then 0 else (if s[0] as int > 0xFFFF then 2 else 1) + Utf16Length(s[1..])
  }

  /** A string of Basic Multilingual Plane characters has one code unit each. */
  lemma {:induction false} Utf16LengthOfBmp(s: string)
    requires forall i :: 0 <= i < |s| ==> s[i] as int <= 0xFFFF
    ensures Utf16Length(s) == |s|
  {
    if s != [] {
      Utf16LengthOfBmp(s[1..]);
    }
  }

  /** The length of a concatenation is the sum of the lengths. */
  lemma {:induction false} Utf16LengthOfConcat(s: string, t: string)
    ensures Utf16Length(s + t) == Utf16Length(s) + Utf16Length(t)
  {
    if s == [] {
      assert s + t == t;
    } else {
      assert (s + t)[0] == s[0] && (s + t)[1..] == s[1..] + t;
      Utf16LengthOfConcat(s[1..], t);
    }
  }

  /** Appending one character adds two code units when it lies outside the
      Basic Multilingual Plane and one otherwise. */
  lemma CharacterAddsItsCodeUnits(s: string, c: char)
    ensures Utf16Length(s + [c]) == Utf16Length(s) + (if c as int > 0xFFFF then 2 else 1)
  {
    Utf16LengthOfConcat(s, [c]);
    assert [c][1..] == [];
  }

  /** The palette slot for a username: its UTF-16 length modulo the palette
      size, so usernames of equal length share a colour. */
  function ColorIndex(username: string): (i: nat)
    ensures i < |AvatarColors|
  {
    Utf16Length(username) % |AvatarColors|
  }

  /** For Basic Multilingual Plane text the slot is the character count
      modulo twelve. */
  lemma ColorIndexOfBmp(username: string)
    requires forall i :: 0 <= i < |username| ==> username[i] as int <= 0xFFFF
    ensures ColorIndex(username) == |username| % 12
  {
    Utf16LengthOfBmp(username);
  }

  /** An emoji counts as two code units: "ab cd" followed by an emoji has
      length 8, not 7. */
  lemma ColorIndexCountsCodeUnits()
    ensures ColorIndex("ab cd \U{1F600}") == 8
  {
    var s := "ab cd \U{1F600}";
    assert s[1..] == "b cd \U{1F600}";
    assert s[2..] == " cd \U{1F600}";
    assert s[3..] == "cd \U{1F600}";
    assert s[4..] == "d \U{1F600}";
    assert s[5..] == " \U{1F600}";
    assert s[6..] == "\U{1F600}";
    assert s[7..] == "";
  }

  const SvgHead: string :=
    "\n    <svg width=\"40\" height=\"40\" viewBox=\"0 0 40 40\" xmlns=\"http://www.w3.org/2000/svg\">"
    + "\n      <circle cx=\"20\" cy=\"20\" r=\"20\" fill=\""

  const SvgMiddle: string :=
    "\"/>"
    + "\n      <text x=\"20\" y=\"26\" font-family=\"Arial, sans-serif\" font-size=\"16\" font-weight=\"bold\" text-anchor=\"middle\" fill=\"#333\">"
    + "\n        "

  const SvgTail: string := "\n      </text>\n    </svg>\n  "

  /** The avatar's SVG text. */
  function Svg(username: string): string {
    SvgHead + AvatarColors[ColorIndex(username)] + SvgMiddle + Initials(username) + SvgTail
  }

  /** Where the pieces of a five-part concatenation sit. */
  lemma PiecesOfConcatenation(head: string, color: string, middle: string, initials: string, tail: string)
    ensures var s := head + color + middle + initials + tail;
            var at := |head| + |color| + |middle|;
            && |s| == at + |initials| + |tail|
            && s[|head|..|head| + |color|] == color
            && s[at..at + |initials|] == initials
  {
    var s := head + color + middle + initials + tail;
    assert s == head + color + (middle + initials + tail);
    assert s == (head + color + middle) + initials + tail;
  }

  /** The SVG fills its circle with the username's palette colour and shows its
      initials, each at a fixed place in the text. */
  lemma SvgShowsColorAndInitials(username: string)
    ensures var s := Svg(username);
            var at := |SvgHead| + 7 + |SvgMiddle|;
            && |s| == at + |Initials(username)| + |SvgTail|
            && s[|SvgHead|..|SvgHead| + 7] == AvatarColors[ColorIndex(username)]
            && s[at..at + |Initials(username)|] == Initials(username)
  {
    var c := AvatarColors[ColorIndex(username)];
    assert |c| == 7;
    PiecesOfConcatenation(SvgHead, c, SvgMiddle, Initials(username), SvgTail);
  }

  /** generateDefaultAvatar: the data URL prefix followed by the base64 text of
      the SVG; it throws where the encoder does. */
  function GenerateDefaultAvatar(username: string, btoa: string -> Option<string>): (r: Completion<string>)
    ensures r.Threw? <==> btoa(Svg(username)).None?
    ensures r.Returned? ==>
              && StartsWith(r.value, DataUrlPrefix)
              && r.value[|DataUrlPrefix|..] == btoa(Svg(username)).value
  {
    match btoa(Svg(username))
    case None => Threw(None)
    case Some(encoded) => Returned(DataUrlPrefix + encoded)
  }

  /** An encoder that, like `btoa`, rejects exactly the text holding a
      character above U+00FF. */
  ghost predicate Latin1Encoder(btoa: string -> Option<string>) {
    forall s :: btoa(s).None? <==> exists i :: 0 <= i < |s| && s[i] as int > 0xFF
  }

  /** A username whose first character lies above U+00FF (an emoji, whose
      first UTF-16 unit `charAt(0)` takes alone, among them) yields an avatar
      text the encoder rejects, so generating the avatar throws. */
  lemma WideInitialThrows(username: string, btoa: string -> Option<string>)
    requires Latin1Encoder(btoa)
    requires username != [] && username[0] as int > 0xFF
    ensures GenerateDefaultAvatar(username, btoa).Threw?
  {
    var at := WideInitialInSvg(username);
    assert Svg(username)[at] as int > 0xFF;
  }

  /** Where the avatar text shows such a first character. */
  lemma WideInitialInSvg(username: string) returns (at: nat)
    requires username != [] && username[0] as int > 0xFF
    ensures at < |Svg(username)| && Svg(username)[at] == username[0]
  {
    var words := Split(username, ' ');
    assert username[0] != ' ';
    assert words[0] != [] && words[0][0] == username[0];
    var initials := Initials(username);
    assert initials[0] == username[0];
    SvgShowsColorAndInitials(username);
    var s := Svg(username);
    at := |SvgHead| + 7 + |SvgMiddle|;
    assert s[at] == s[at..at + |initials|][0];
  }

  /** getDefaultAvatarUrl: the same data URL. */
  function GetDefaultAvatarUrl(username: string, btoa: string -> Option<string>): (r: Completion<string>)
    ensures r == GenerateDefaultAvatar(username, btoa)
  {
    GenerateDefaultAvatar(username, btoa)
  }
}
