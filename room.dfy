/** Room addressing and the join form: the room named by the URL fragment, the
    share link that leads back to it, the decision the join button takes, and
    the generated guest name. */
module Room {

  /** The room used when the URL has no fragment. */
  const DEFAULT_ROOM: string := "lop46"

  /** `location.hash.slice(1) || 'lop46'`: the fragment without its leading
      '#', or the default room when that is empty. */
  function RoomFromHash(hash: string): (room: string)
    ensures room != ""
    ensures |hash| > 1 ==> room == hash[1..]
    ensures |hash| <= 1 ==> room == DEFAULT_ROOM
  {
    var tail := if |hash| <= 1 then "" else hash[1..];
    if tail == "" then DEFAULT_ROOM else tail
  }

  /** `href.split('#')[0]`: the address up to its first '#'. */
  function BeforeHash(href: string): (pre: string)
    ensures pre <= href
    ensures '#' !in pre
    ensures |pre| < |href| ==> href[|pre|] == '#'
  {
    if href == [] || href[0] == '#' then [] else [href[0]] + BeforeHash(href[1..])
  }

  /** What `location.hash` reads for an address: its fragment, '#'
      included, or "" when there is none or the fragment is a bare '#'. */
  function HashOf(href: string): (hash: string)
    ensures hash == "" || (|hash| > 1 && hash[0] == '#')
    ensures BeforeHash(href) + hash == href || (hash == "" && href == BeforeHash(href) + "#")
  {
    var rest := href[|BeforeHash(href)|..];
    if rest == "#" then "" else rest
  }

  /** The link the share button copies: the current address with its fragment
      replaced by '#' and the room. */
  function ShareLink(href: string, room: string): (link: string)
    ensures BeforeHash(href) <= link
    ensures |link| == |BeforeHash(href)| + 1 + |room|
    ensures link[|BeforeHash(href)|] == '#' && link[|BeforeHash(href)| + 1..] == room
  {
    BeforeHash(href) + "#" + room
  }

  lemma {:induction false} BeforeHashOfSplit(pre: string, rest: string)
    requires '#' !in pre
    ensures BeforeHash(pre + "#" + rest) == pre
    decreases |pre|
  {
    if pre != [] {
      assert (pre + "#" + rest)[1..] == pre[1..] + "#" + rest;
      BeforeHashOfSplit(pre[1..], rest);
    }
  }

  /** Opening the share link lands in the room it was made for, and on the
      same page. */
  lemma ShareLinkOpensRoom(href: string, room: string)
    requires room != ""
    ensures BeforeHash(ShareLink(href, room)) == BeforeHash(href)
    ensures RoomFromHash(HashOf(ShareLink(href, room))) == room
  {
    var pre := BeforeHash(href);
    BeforeHashOfSplit(pre, room);
    assert HashOf(ShareLink(href, room)) == "#" + room;
  }

  /** The characters `String.prototype.trim` removes: ECMAScript WhiteSpace
      and LineTerminator. */
  predicate IsSpace(c: char) {
    || c == '\t' || c == '\n' || c == '\U{000B}' || c == '\U{000C}' || c == '\r'
    || c == ' ' || c == '\U{00A0}' || c == '\U{1680}'
    || ('\U{2000}' <= c <= '\U{200A}')
    || c == '\U{2028}' || c == '\U{2029}' || c == '\U{202F}' || c == '\U{205F}'
    || c == '\U{3000}' || c == '\U{FEFF}'
  }

  /** A form field that holds nothing but white space. */
  predicate Blank(s: string) {
    forall i :: 0 <= i < |s| ==> IsSpace(s[i])
  }

  /** `s` with its leading white space removed. */
  function TrimStart(s: string): (r: string)
    ensures |r| <= |s| && r == s[|s| - |r|..]
    ensures forall i :: 0 <= i < |s| - |r| ==> IsSpace(s[i])
    ensures r != [] ==> !IsSpace(r[0])
  {
    if s != [] && IsSpace(s[0]) then TrimStart(s[1..]) else s
  }

  /** `s` with its trailing white space removed. */
  function TrimEnd(s: string): (r: string)
    ensures |r| <= |s| && r == s[..|r|]
    ensures forall i :: |r| <= i < |s| ==> IsSpace(s[i])
    ensures r != [] ==> !IsSpace(r[|r| - 1])
  {
    if s != [] && IsSpace(s[|s| - 1]) then TrimEnd(s[..|s| - 1]) else s
  }

  /** `s.trim()`: empty exactly for a blank field, otherwise a piece of `s`
      that neither starts nor ends with white space. */
  function Trim(s: string): (r: string)
    ensures r == "" <==> Blank(s)
    ensures r != "" ==> !IsSpace(r[0]) && !IsSpace(r[|r| - 1])
  {
    TrimEnd(TrimStart(s))
  }

  /** What TrimStart drops is white space. */
  lemma TrimStartDropsBlank(s: string)
    ensures Blank(s[..|s| - |TrimStart(s)|])
  {
    var p := s[..|s| - |TrimStart(s)|];
    assert forall k :: 0 <= k < |p| ==> p[k] == s[k];
  }

  /** What TrimEnd drops is white space. */
  lemma TrimEndDropsBlank(t: string)
    ensures Blank(t[|TrimEnd(t)|..])
  {
    var q := t[|TrimEnd(t)|..];
    assert forall k :: 0 <= k < |q| ==> q[k] == t[|TrimEnd(t)| + k];
  }

  /** What `trim` keeps is the field's own characters between its leading
      and its trailing white space. */
  lemma TrimIsInnerPiece(s: string)
    ensures exists i, j :: 0 <= i <= j <= |s| && Trim(s) == s[i..j] && Blank(s[..i]) && Blank(s[j..])
  {
    var t := TrimStart(s);
    var r := TrimEnd(t);
    var i := |s| - |t|;
    var j := i + |r|;
    TrimStartDropsBlank(s);
    TrimEndDropsBlank(t);
    assert t == s[i..];
    assert s[j..] == t[|r|..];
    assert r == s[i..j];
    assert Trim(s) == s[i..j] && Blank(s[..i]) && Blank(s[j..]);
  }

  /** What the join button does: a non-blank room field reloads the page into
      that room; otherwise a blank name is refused; otherwise the trimmed name
      becomes the user name and the client enters the current room. */
  datatype JoinDecision = Reload(room: string) | Rejected | Enter(name: string)

  function Join(nameField: string, roomField: string): (d: JoinDecision)
    ensures d.Reload? <==> !Blank(roomField)
    ensures d.Rejected? <==> Blank(roomField) && Blank(nameField)
    ensures d.Reload? ==> d.room == Trim(roomField)
    ensures d.Enter? ==> d.name == Trim(nameField) && d.name != ""
  {
    var r := Trim(roomField);
    if r != "" then Reload(r)
    else
      var nm := Trim(nameField);
      if nm == "" then Rejected else Enter(nm)
  }

  /** After the reload, the room derived from the new fragment is the one
      typed in the field (when it does not itself start with '#'; the browser
      drops such a leading '#'). */
  lemma ReloadEntersTypedRoom(nameField: string, roomField: string)
    requires Join(nameField, roomField).Reload?
    requires Join(nameField, roomField).room[0] != '#'
    ensures RoomFromHash("#" + Join(nameField, roomField).room) == Join(nameField, roomField).room
  {
  }

  /** The decimal digits of `n`, as `String(n)` writes them. */
  function Decimal(n: nat): (s: string)
    ensures 1 <= |s|
    ensures forall i :: 0 <= i < |s| ==> '0' <= s[i] <= '9'
    ensures n > 0 ==> s[0] != '0'
    ensures n < 10 <==> |s| == 1
    decreases n
  {
    var d := ('0' as int + n % 10) as char;
    if n < 10 then [d] else Decimal(n / 10) + [d]
  }

  /** The number a string of decimal digits denotes. */
  function ParseDecimal(s: string): nat
    requires forall i :: 0 <= i < |s| ==> '0' <= s[i] <= '9'
    decreases |s|
  {
    if s == [] then 0
    else ParseDecimal(s[..|s| - 1]) * 10 + (s[|s| - 1] as int - '0' as int)
  }

  lemma {:induction false} DecimalRoundTrip(n: nat)
    ensures ParseDecimal(Decimal(n)) == n
    decreases n
  {
    var s := Decimal(n);
    if n >= 10 {
      DecimalRoundTrip(n / 10);
      assert s[..|s| - 1] == Decimal(n / 10);
    }
  }

  /** A number from 1000 to 9999 is written with four digits. */
  lemma FourDigits(n: nat)
    requires 1000 <= n <= 9999
    ensures |Decimal(n)| == 4
  {
    assert |Decimal(n / 100)| == 2 by {
      assert |Decimal(n / 1000)| == 1;
    }
  }

  /** The guest button's name: 'anon-' followed by the four-digit number
      `Math.floor(Math.random() * 9000 + 1000)`, which is passed in. The
      name is never empty and its digits give the number back. */
  function GuestName(n: int): (name: string)
    requires 1000 <= n <= 9999
    ensures |name| == 9 && name[..5] == "anon-"
    ensures forall i :: 5 <= i < |name| ==> '0' <= name[i] <= '9'
    ensures name[5] != '0'
    ensures ParseDecimal(name[5..]) == n
  {
    var digits := Decimal(n);
    DecimalRoundTrip(n);
    FourDigits(n);
    assert ("anon-" + digits)[5..] == digits;
    "anon-" + digits
  }
}
