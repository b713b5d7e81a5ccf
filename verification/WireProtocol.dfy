/** The messages that the client prints (client.cpp, HandleClient.cpp) and the server parses (HandleServerV2.cpp).
    The server decides what a message is by the first of seven tags that occurs anywhere in it. */
module WireProtocol {
  import opened Text

  datatype Message =
    | Cookie(id: string)
    | Login(name: string, pass: string)
    | Register(name: string, pass: string)
    | Target(target: string, from: string)
    | Content(text: string)
    | Group(number: int)
    | GroupMessage(text: string)
    | Unknown // no tag: the server ignores it

  /** None: an exception that nothing catches. */
  type Parsed = Option<Message>

  // The client's side

  function PrintCookie(id: string): string {
    "cookie:" + id
  }

  function PrintLogin(name: string, pass: string): string {
    "login" + name + "pass:" + pass
  }

  function PrintRegister(name: string, pass: string): string {
    "name:" + name + "pass:" + pass
  }

  function PrintTarget(target: string, from: string): string {
    "target:" + target + "from:" + from
  }

  function PrintGroup(number: int): string {
    "group:" + ToString(number)
  }

  datatype Sending = Stop | Skip | Send(sock: int, text: string)

  /** A line typed into a chat: "exit" ends it; a positive socket means a private chat, a negative one a group chat. */
  function HandleSend(sock: int, line: string): Sending {
    if line == "exit" then Stop
    else if sock > 0 then Send(sock, "content:" + line)
    else if sock < 0 then Send(-sock, "gr_message:" + line)
    else Skip
  }

  // Numbers

  function Digits(n: nat): string {
    if n < 10 then [DigitChar(n)] else Digits(n / 10) + [DigitChar(n % 10)]
  }

  function DigitChar(d: nat): char
    requires d < 10
  {
    '0' + d as char
  }

  /** `to_string` */
  function ToString(n: int): string {
    if n < 0 then "-" + Digits(-n) else Digits(n)
  }

  predicate IsDigit(c: char) {
    '0' <= c <= '9'
  }

  predicate IsSpace(c: char) {
    c == ' ' || '\t' as int <= c as int <= '\r' as int
  }

  /** The value of the digits at the front of `s`, continuing from `value`. */
  function ReadDigits(s: string, value: nat): nat {
    if s == [] || !IsDigit(s[0]) then value else ReadDigits(s[1..], value * 10 + (s[0] as nat - '0' as nat))
  }

  /** `stoi`: leading white space, a sign, digits; anything after them is ignored. It throws when there is no digit
      or the value is not an `int`. */
  function StoI(s: string): Option<int> {
    if s != [] && IsSpace(s[0]) then StoI(s[1..])
    else
      var negative := s != [] && s[0] == '-';
      var t := if s != [] && (s[0] == '-' || s[0] == '+') then s[1..] else s;
      if t == [] || !IsDigit(t[0]) then None
      else
        var v := if negative then 0 - ReadDigits(t, 0) else ReadDigits(t, 0);
        if -0x8000_0000 <= v < 0x8000_0000 then Some(v) else None
  }

  // The server's side

  /** Name and password: both positions and lengths come from the labels, as if the message started with its own. */
  function NameAndPass(s: string, mark: string): Option<(string, string)> {
    var p1 := Find(s, mark);
    var p2 := Find(s, "pass:");
    match (Substr(s, p1 + 5, p2 - 5), Substr(s, p2 + 5, |s| - p2 - 4))
    case (Some(name), Some(pass)) => Some((name, pass))
    case _ => None
  }

  function TargetAndFrom(s: string): Option<(string, string)> {
    var pos1 := Find(s, "from");
    match (Substr(s, 7, pos1 - 7), Rest(s, pos1 + 5))
    case (Some(target), Some(from)) => Some((target, from))
    case _ => None
  }

  function Parse(s: string): Parsed {
    if Find(s, "cookie:") != -1 then
      match Rest(s, 7)
      case Some(id) => Some(Cookie(id))
      case None => None
    else if Find(s, "login") != -1 then
      match NameAndPass(s, "login")
      case Some((name, pass)) => Some(Login(name, pass))
      case None => None
    else if Find(s, "name:") != -1 then
      match NameAndPass(s, "name:")
      case Some((name, pass)) => Some(Register(name, pass))
      case None => None
    else if Find(s, "target:") != -1 then
      match TargetAndFrom(s)
      case Some((target, from)) => Some(Target(target, from))
      case None => None
    else if Find(s, "content:") != -1 then
      match Rest(s, 8)
      case Some(text) => Some(Content(text))
      case None => None
    else if Find(s, "group:") != -1 then
      match Rest(s, 6)
      case None => None
      case Some(digits) =>
        match StoI(digits)
        case Some(number) => Some(Group(number))
        case None => None
    else if Find(s, "gr_message:") != -1 then
      match Rest(s, 11)
      case Some(text) => Some(GroupMessage(text))
      case None => None
    else Some(Unknown)
  }

  // What the client sends, and what the server makes of any message at all

  lemma WireFormat()
    ensures PrintCookie("c1") == "cookie:c1" && PrintGroup(7) == "group:7" && PrintGroup(-12) == "group:-12"
    ensures PrintLogin("ann", "x") == "loginannpass:x" && PrintRegister("ann", "x") == "name:annpass:x"
    ensures PrintTarget("bob", "ann") == "target:bobfrom:ann"
    ensures HandleSend(5, "hi") == Send(5, "content:hi") && HandleSend(-5, "hi") == Send(5, "gr_message:hi")
  {
    assert Digits(7) == "7" && Digits(12) == Digits(1) + "2";
  }

  /** A chat ends at "exit" and nowhere else. */
  lemma StopsAtExit(sock: int, line: string)
    ensures HandleSend(sock, line).Stop? <==> line == "exit"
    ensures HandleSend(sock, line).Skip? <==> sock == 0 && line != "exit"
  {
  }

  /** The kind of every message is decided by the first of the seven tags that occurs in it; one without any is
      ignored. */
  lemma MessageKind(s: string)
    ensures match Parse(s)
      case Some(Cookie(id)) => Contains(s, "cookie:") && id == s[7..]
      case Some(Login(name, pass)) =>
        Contains(s, "login") && NameAndPass(s, "login") == Some((name, pass)) && !Contains(s, "cookie:")
      case Some(Register(name, pass)) =>
        && Contains(s, "name:") && NameAndPass(s, "name:") == Some((name, pass))
        && !Contains(s, "login") && !Contains(s, "cookie:")
      case Some(Target(target, from)) =>
        Contains(s, "target:") && TargetAndFrom(s) == Some((target, from)) && NotAboutUsers(s)
      case Some(Content(text)) => Contains(s, "content:") && text == s[8..] && !Contains(s, "target:") && NotAboutUsers(s)
      case Some(Group(number)) => Contains(s, "group:") && StoI(s[6..]) == Some(number) && NotPrivate(s)
      case Some(GroupMessage(text)) =>
        Contains(s, "gr_message:") && text == s[11..] && !Contains(s, "group:") && NotPrivate(s)
      case Some(Unknown) => !Contains(s, "gr_message:") && !Contains(s, "group:") && NotPrivate(s)
      case None => ThrowsOn(s)
  {
    NamesNeverThrow(s, "login");
    NamesNeverThrow(s, "name:");
    TargetThrowsIff(s);
  }

  /** The handler throws exactly on a target message whose first "from" ends it, and on a group message without a
      number that is an `int`. */
  lemma ThrowsIff(s: string)
    ensures Parse(s) == None <==> ThrowsOn(s)
  {
    NamesNeverThrow(s, "login");
    NamesNeverThrow(s, "name:");
    TargetThrowsIff(s);
  }

  ghost predicate NotAboutUsers(s: string) {
    !Contains(s, "name:") && !Contains(s, "login") && !Contains(s, "cookie:")
  }

  ghost predicate NotPrivate(s: string) {
    !Contains(s, "content:") && !Contains(s, "target:") && NotAboutUsers(s)
  }

  ghost predicate ThrowsOn(s: string) {
    || (Contains(s, "target:") && NotAboutUsers(s) && Find(s, "from") == |s| - 4)
    || (Contains(s, "group:") && NotPrivate(s) && StoI(s[6..]) == None)
  }

  lemma NamesNeverThrow(s: string, mark: string)
    requires |mark| == 5
    ensures Contains(s, mark) ==> NameAndPass(s, mark).Some?
  {
  }

  lemma TargetThrowsIff(s: string)
    ensures Contains(s, "target:") ==> (TargetAndFrom(s) == None <==> Find(s, "from") == |s| - 4)
  {
    if i :| At(s, "target:", i) {
      assert |s| >= 7;
    }
  }

  /** What is read as name and password of any message. The name is as long as if the label stood in front, and runs
      on by as many characters as stand before the label; without "pass:" it runs to the end. */
  lemma NameAndPassRead(s: string, mark: string)
    requires |mark| == 5 && Contains(s, mark)
    ensures var p1, p2, r := Find(s, mark), Find(s, "pass:"), NameAndPass(s, mark);
      && r.Some?
      && (p2 < 5 ==> r.value.0 == s[p1 + 5..])
      && (p2 >= 5 ==> r.value.0 == s[p1 + 5..if p1 + p2 < |s| then p1 + p2 else |s|])
      && r.value.1 == s[p2 + 5..]
  {
  }

  /** What is read as target and sender; both run to the end without a "from". */
  lemma TargetAndFromRead(s: string)
    requires Contains(s, "target:") && Find(s, "from") != |s| - 4
    ensures var pos, r := Find(s, "from"), TargetAndFrom(s);
      && r.Some? && r.value.1 == s[pos + 5..]
      && r.value.0 == if pos < 7 then s[7..] else s[7..pos]
  {
    TargetThrowsIff(s);
  }

  // Parsing undoes printing

  /** Exactly when does the server read back what the client meant by a login? */
  lemma LoginRoundTrip(name: string, pass: string)
    ensures Parse(PrintLogin(name, pass)) == Some(Login(name, pass)) <==>
      !Contains(name, "cookie:") && !Contains(pass, "cookie:") && !Contains(name, "pass:")
  {
    var s := PrintLogin(name, pass);
    TwoFields("login", name, "pass:", pass, "cookie:");
    LabelInFront("login", name + "pass:" + pass, s);
    SecondLabel("login", name, "pass:", pass);
    CutNameAndPass("login", name, pass);
  }

  lemma RegisterRoundTrip(name: string, pass: string)
    ensures Parse(PrintRegister(name, pass)) == Some(Register(name, pass)) <==>
      && !Contains(name, "cookie:") && !Contains(pass, "cookie:")
      && !Contains(name, "login") && !Contains(pass, "login") && !Contains(name, "pass:")
  {
    var s := PrintRegister(name, pass);
    TwoFields("name:", name, "pass:", pass, "cookie:");
    TwoFields("name:", name, "pass:", pass, "login");
    LabelInFront("name:", name + "pass:" + pass, s);
    SecondLabel("name:", name, "pass:", pass);
    CutNameAndPass("name:", name, pass);
  }

  lemma LabelInFront(mark: string, rest: string, s: string)
    requires s == mark + rest
    ensures Find(s, mark) == 0
  {
    assert At(s, mark, 0);
    FindIs(s, mark, 0);
  }

  /** The arithmetic on positions recovers both fields exactly when the second label is found in its own place. */
  lemma CutNameAndPass(mark: string, name: string, pass: string)
    requires |mark| == 5
    requires var s := mark + name + "pass:" + pass;
      Find(s, mark) == 0 && 5 <= Find(s, "pass:") <= 5 + |name|
    ensures var s := mark + name + "pass:" + pass; var r := NameAndPass(s, mark);
      && r.Some?
      && (r.value == (name, pass) <==> Find(s, "pass:") == 5 + |name|)
  {
    var s := mark + name + "pass:" + pass;
    var p2 := Find(s, "pass:");
    assert |s[5..p2]| == p2 - 5;
    if p2 == 5 + |name| {
      assert s[5..p2] == name && s[p2 + 5..] == pass;
    }
  }

  lemma TargetRoundTrip(target: string, from: string)
    ensures Parse(PrintTarget(target, from)) == Some(Target(target, from)) <==>
      && !Contains(target, "cookie:") && !Contains(from, "cookie:")
      && !Contains(target, "login") && !Contains(from, "login")
      && !Contains(target, "name:") && !Contains(from, "name:")
      && !Contains(target, "from")
  {
    TagsInTarget(target, from);
    CutTarget(target, from);
    TargetInFront(target, from);
  }

  lemma TargetInFront(target: string, from: string)
    ensures Contains(PrintTarget(target, from), "target:")
  {
    LabelInFront("target:", target + "from:" + from, PrintTarget(target, from));
  }

  lemma TagsInTarget(target: string, from: string)
    ensures var s := PrintTarget(target, from);
      && (Contains(s, "cookie:") <==> Contains(target, "cookie:") || Contains(from, "cookie:"))
      && (Contains(s, "login") <==> Contains(target, "login") || Contains(from, "login"))
      && (Contains(s, "name:") <==> Contains(target, "name:") || Contains(from, "name:"))
  {
    TwoFields("target:", target, "from:", from, "cookie:");
    TwoFields("target:", target, "from:", from, "login");
    TwoFields("target:", target, "from:", from, "name:");
  }

  lemma CutTarget(target: string, from: string)
    ensures TargetAndFrom(PrintTarget(target, from)) == Some((target, from)) <==> !Contains(target, "from")
  {
    var s := PrintTarget(target, from);
    assert s == "target:" + target + "from" + (":" + from);
    SecondLabel("target:", target, "from", ":" + from);
    var p := Find(s, "from");
    assert |s[7..p]| == p - 7;
    if p == 7 + |target| {
      assert s[7..p] == target && s[p + 5..] == from;
    }
  }

  lemma TagsInContent(line: string)
    ensures var s := "content:" + line;
      && (Contains(s, "cookie:") <==> Contains(line, "cookie:")) && (Contains(s, "login") <==> Contains(line, "login"))
      && (Contains(s, "name:") <==> Contains(line, "name:")) && (Contains(s, "target:") <==> Contains(line, "target:"))
  {
    ContainsAfterForeign("content:", line, "cookie:");
    ContainsAfterForeign("content:", line, "login");
    ContainsAfterForeign("content:", line, "name:");
    ContainsAfterForeign("content:", line, "target:");
  }

  lemma ContentRoundTrip(sock: int, line: string)
    requires sock > 0 && line != "exit"
    ensures var sent := HandleSend(sock, line);
      sent.Send? && sent.sock == sock &&
      (Parse(sent.text) == Some(Content(line)) <==>
        !Contains(line, "cookie:") && !Contains(line, "login") && !Contains(line, "name:") && !Contains(line, "target:"))
  {
    var s := "content:" + line;
    TagsInContent(line);
    LabelInFront("content:", line, s);
    assert s[8..] == line;
  }

  lemma TagsInGroupMessage(line: string)
    ensures var s := "gr_message:" + line;
      && (Contains(s, "cookie:") <==> Contains(line, "cookie:")) && (Contains(s, "login") <==> Contains(line, "login"))
      && (Contains(s, "name:") <==> Contains(line, "name:")) && (Contains(s, "target:") <==> Contains(line, "target:"))
      && (Contains(s, "content:") <==> Contains(line, "content:")) && (Contains(s, "group:") <==> Contains(line, "group:"))
  {
    ContainsAfterForeign("gr_message:", line, "cookie:");
    ContainsAfterForeign("gr_message:", line, "login");
    ContainsAfterForeign("gr_message:", line, "name:");
    ContainsAfterForeign("gr_message:", line, "target:");
    ContainsAfterForeign("gr_message:", line, "content:");
    ContainsAfterForeign("gr_message:", line, "group:");
  }

  lemma GroupMessageRoundTrip(sock: int, line: string)
    requires sock < 0 && line != "exit"
    ensures var sent := HandleSend(sock, line);
      sent.Send? && sent.sock == -sock &&
      (Parse(sent.text) == Some(GroupMessage(line)) <==>
        && !Contains(line, "cookie:") && !Contains(line, "login") && !Contains(line, "name:")
        && !Contains(line, "target:") && !Contains(line, "content:") && !Contains(line, "group:"))
  {
    var s := "gr_message:" + line;
    TagsInGroupMessage(line);
    LabelInFront("gr_message:", line, s);
    assert s[11..] == line;
  }

  lemma CookieRoundTrip(id: string)
    ensures Parse(PrintCookie(id)) == Some(Cookie(id))
  {
    LabelInFront("cookie:", id, PrintCookie(id));
    assert PrintCookie(id)[7..] == id;
  }

  lemma {:induction false} DigitsAreDigits(n: nat)
    ensures Digits(n) != [] && forall i :: 0 <= i < |Digits(n)| ==> IsDigit(Digits(n)[i])
  {
    if n >= 10 {
      DigitsAreDigits(n / 10);
    }
  }

  lemma {:induction false} ReadDigitsAppend(s: string, value: nat, c: char)
    requires IsDigit(c) && forall i :: 0 <= i < |s| ==> IsDigit(s[i])
    ensures ReadDigits(s + [c], value) == ReadDigits(s, value) * 10 + (c as nat - '0' as nat)
  {
    if s == [] {
      assert s + [c] == [c];
    } else {
      assert (s + [c])[1..] == s[1..] + [c];
      ReadDigitsAppend(s[1..], value * 10 + (s[0] as nat - '0' as nat), c);
    }
  }

  lemma {:induction false} ReadDigitsOfDigits(n: nat)
    ensures ReadDigits(Digits(n), 0) == n
  {
    if n >= 10 {
      ReadDigitsOfDigits(n / 10);
      DigitsAreDigits(n / 10);
      ReadDigitsAppend(Digits(n / 10), 0, DigitChar(n % 10));
    } else {
      assert Digits(n)[1..] == [];
    }
  }

  lemma StoIOfToString(n: int)
    requires -0x8000_0000 <= n < 0x8000_0000
    ensures StoI(ToString(n)) == Some(n)
  {
    var m := if n < 0 then -n else n;
    DigitsAreDigits(m);
    ReadDigitsOfDigits(m);
    if n < 0 {
      assert ToString(n)[1..] == Digits(m);
    }
  }

  lemma CharacterClasses(c: char)
    ensures IsDigit(c) <==> c in "0123456789"
    ensures IsSpace(c) <==> c in " \t\n\r" || c as int == 11 || c as int == 12
  {
    if IsDigit(c) {
      assert "0123456789"[c as int - '0' as int] == c;
    }
    if c == ' ' { assert " \t\n\r"[0] == c; }
    if c == '\t' { assert " \t\n\r"[1] == c; }
    if c == '\n' { assert " \t\n\r"[2] == c; }
    if c == '\r' { assert " \t\n\r"[3] == c; }
  }

  lemma {:induction false} ReadDigitsStops(digits: string, rest: string, value: nat)
    requires (forall i :: 0 <= i < |digits| ==> IsDigit(digits[i])) && (rest == [] || !IsDigit(rest[0]))
    ensures ReadDigits(digits + rest, value) == ReadDigits(digits, value)
  {
    if digits == [] {
      assert digits + rest == rest;
    } else {
      assert (digits + rest)[1..] == digits[1..] + rest;
      ReadDigitsStops(digits[1..], rest, value * 10 + (digits[0] as nat - '0' as nat));
    }
  }

  lemma {:induction false} StoISkips(spaces: string, s: string)
    requires forall i :: 0 <= i < |spaces| ==> IsSpace(spaces[i])
    ensures StoI(spaces + s) == StoI(s)
  {
    if spaces == [] {
      assert spaces + s == s;
    } else {
      assert (spaces + s)[1..] == spaces[1..] + s;
      StoISkips(spaces[1..], s);
    }
  }

  lemma StoIAfterSign(sign: string, n: nat, rest: string)
    requires (sign == "" || sign == "+" || sign == "-") && (rest == [] || !IsDigit(rest[0]))
    ensures var v: int := if sign == "-" then 0 - n else n;
      StoI(sign + (Digits(n) + rest)) == if -0x8000_0000 <= v < 0x8000_0000 then Some(v) else None
  {
    var t := Digits(n) + rest;
    DigitsAreDigits(n);
    ReadDigitsOfDigits(n);
    ReadDigitsStops(Digits(n), rest, 0);
    assert t[0] == Digits(n)[0] && ReadDigits(t, 0) == n;
    if sign == "" {
      assert sign + t == t;
    } else {
      assert (sign + t)[0] == sign[0] && (sign + t)[1..] == t;
    }
  }

  /** `stoi` reads the number after any white space and sign, whatever follows its digits, and throws exactly when it
      is not an `int`. */
  lemma StoIReads(spaces: string, sign: string, n: nat, rest: string)
    requires (forall i :: 0 <= i < |spaces| ==> IsSpace(spaces[i])) && (sign == "" || sign == "+" || sign == "-")
    requires rest == [] || !IsDigit(rest[0])
    ensures var v: int := if sign == "-" then 0 - n else n;
      StoI(spaces + (sign + (Digits(n) + rest))) == if -0x8000_0000 <= v < 0x8000_0000 then Some(v) else None
  {
    StoISkips(spaces, sign + (Digits(n) + rest));
    StoIAfterSign(sign, n, rest);
  }

  /** Without a digit after white space and sign, `stoi` throws. */
  lemma StoINeedsDigit(spaces: string, sign: string, rest: string)
    requires (forall i :: 0 <= i < |spaces| ==> IsSpace(spaces[i])) && (sign == "" || sign == "+" || sign == "-")
    requires rest == [] || (!IsDigit(rest[0]) && (sign == "" ==> !IsSpace(rest[0]) && rest[0] != '+' && rest[0] != '-'))
    ensures StoI(spaces + (sign + rest)) == None
  {
    StoISkips(spaces, sign + rest);
    if sign == "" {
      assert sign + rest == rest;
    } else {
      assert (sign + rest)[1..] == rest;
    }
  }

  /** A group number is never taken for anything else. */
  lemma GroupRoundTrip(number: int)
    requires -0x8000_0000 <= number < 0x8000_0000
    ensures Parse(PrintGroup(number)) == Some(Group(number))
  {
    var s, digits := PrintGroup(number), ToString(number);
    DigitsAreDigits(if number < 0 then -number else number);
    assert forall i :: 0 <= i < |digits| ==> digits[i] == '-' || IsDigit(digits[i]);
    TagsInGroup(digits);
    LabelInFront("group:", digits, s);
    StoIOfToString(number);
    assert s[6..] == digits;
  }

  lemma TagsInGroup(digits: string)
    requires forall i :: 0 <= i < |digits| ==> digits[i] == '-' || IsDigit(digits[i])
    ensures var s := "group:" + digits;
      && !Contains(s, "cookie:") && !Contains(s, "login") && !Contains(s, "name:")
      && !Contains(s, "target:") && !Contains(s, "content:")
  {
    NoTagInDigits(digits, "cookie:");
    NoTagInDigits(digits, "login");
    NoTagInDigits(digits, "name:");
    NoTagInDigits(digits, "target:");
    NoTagInDigits(digits, "content:");
    ContainsAfterForeign("group:", digits, "cookie:");
    ContainsAfterForeign("group:", digits, "login");
    ContainsAfterForeign("group:", digits, "name:");
    ContainsAfterForeign("group:", digits, "target:");
    ContainsAfterForeign("group:", digits, "content:");
  }

  lemma NoTagInDigits(digits: string, tag: string)
    requires forall i :: 0 <= i < |digits| ==> digits[i] == '-' || IsDigit(digits[i])
    requires tag != [] && !IsDigit(tag[0]) && tag[0] != '-'
    ensures !Contains(digits, tag)
  {
    forall i | 0 <= i <= |digits| - |tag|
      ensures !At(digits, tag, i)
    {
      assert digits[i..i + |tag|][0] == digits[i];
    }
  }
}
