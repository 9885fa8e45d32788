/**
 The way of a portal login through the Zeek log: write_zeek_log prints a line of twenty fields, Filebeat
 cuts it at the tabs, and process_raw_event takes the user, the outcome and the VPN flag out of the
 service field.
 */
module ZeekLines {
  import opened Options
  import opened Text

  /** What write_zeek_log prints about; `ts` and `uid` are generated, `ip` is the client's address. */
  datatype Login = Login(ts: string, uid: string, ip: string, username: string, success: bool, isVpn: bool)

  const TAB := '\t'
  const NEWLINE := '\n'

  function Status(success: bool): string {
    if success then "success" else "failure"
  }

  function Service(l: Login): string {
    "auth_" + l.username + "_" + Status(l.success) + if l.isVpn then "_vpn" else ""
  }

  function Fields(l: Login): (fields: seq<string>)
    ensures |fields| == 20
  {
    [l.ts, l.uid, l.ip, "12345", "10.0.0.1", "443", "tcp", Service(l), "1.0", "500",
     if l.success then "500" else "100", if l.success then "SF" else "REJ", "-", "-", "0", "ShADadFf", "10", "1000",
     "10", "1000"]
  }

  function Line(l: Login): string {
    Join(Fields(l), TAB) + [NEWLINE]
  }

  /** The log file is only appended to. */
  class ZeekLog {
    var text: string

    constructor ()
      ensures text == ""
    {
      text := "";
    }

    method WriteZeekLog(l: Login)
      modifies this
      ensures text == old(text) + Line(l)
    {
      var status := if l.success then "success" else "failure";
      var service := "auth_" + l.username + "_" + status;
      if l.isVpn {
        service := service + "_vpn";
      }
      var respBytes := if l.success then "500" else "100";
      var connState := if l.success then "SF" else "REJ";
      var fields := [l.ts, l.uid, l.ip, "12345", "10.0.0.1", "443", "tcp", service, "1.0", "500", respBytes, connState,
                     "-", "-", "0", "ShADadFf", "10", "1000", "10", "1000"];
      assert service == Service(l);
      assert fields == Fields(l);
      text := text + Join(fields, TAB) + [NEWLINE];
    }
  }

  // ---- Filebeat ----

  /** The dissect tokenizer of twenty keys: the last takes whatever is left. */
  function Dissect(message: string): (fields: Option<seq<string>>)
    ensures fields.Some? ==> |fields.value| == 20
  {
    var parts := Split(message, TAB);
    if |parts| < 20 then None else Some(parts[..19] + [Join(parts[19..], TAB)])
  }

  /** The complete lines of the file, one message each. */
  function Messages(text: string): seq<string> {
    var lines := Split(text, NEWLINE);
    lines[..|lines| - 1]
  }

  // ---- process_raw_event ----

  /** What the event says about the login. */
  datatype Event = Event(eventId: string, sourceIp: string, userId: string, success: bool, vpnSuffix: bool, isVpn: bool)

  predicate EndsWith(s: string, suffix: string) {
    |suffix| <= |s| && s[|s| - |suffix|..] == suffix
  }

  function LowerChar(c: char): char {
    if 'A' <= c <= 'Z' then (c as int + 32) as char else c
  }

  predicate VpnAt(s: string, i: nat) {
    i + 3 <= |s| && LowerChar(s[i]) == 'v' && LowerChar(s[i + 1]) == 'p' && LowerChar(s[i + 2]) == 'n'
  }

  /** "vpn" in s.lower() */
  predicate MentionsVpn(s: string) {
    exists i :: 0 <= i < |s| && VpnAt(s, i)
  }

  predicate KnownVpnPrefix(ip: string) {
    "45." <= ip || "82." <= ip || "185." <= ip
  }

  /** User, success and VPN suffix of a service field that begins with auth_. */
  function DecodeService(service: string): Option<(string, bool, bool)> {
    if !("auth_" <= service) then None
    else
      var vpn := EndsWith(service, "_vpn");
      var clean := if vpn then service[..|service| - 4] else service;
      var parts := Split(clean, '_');
      if |parts| < 3 then None else Some((parts[1], parts[2] == "success", vpn))
  }

  function ReadLogin(message: string): Option<Event> {
    match Dissect(message)
    case None => None
    case Some(fields) =>
      var uid, ip, service := fields[1], fields[2], fields[7];
      if ip == "" then None
      else
        match DecodeService(service)
        case None => None
        case Some(d) =>
          Some(Event(uid, ip, d.0, d.1, d.2,
                     d.2 || MentionsVpn(service) || MentionsVpn(d.0) || KnownVpnPrefix(ip)))
  }

  // ---- The round trip ----

  /** None of the free fields breaks the line apart. */
  predicate Printable(l: Login) {
    && TAB !in l.ts && TAB !in l.uid && TAB !in l.ip && TAB !in l.username
    && NEWLINE !in l.ts && NEWLINE !in l.uid && NEWLINE !in l.ip && NEWLINE !in l.username
    && l.ip != ""
  }

  /** A control character, such as a tab or a newline. */
  predicate IsControl(c: char) {
    c < ' '
  }

  predicate Visible(s: string) {
    forall i :: 0 <= i < |s| ==> !IsControl(s[i])
  }

  lemma FixedFieldsAreVisible()
    ensures Visible("12345") && Visible("10.0.0.1") && Visible("443") && Visible("tcp") && Visible("1.0")
    ensures Visible("500") && Visible("100") && Visible("SF") && Visible("REJ") && Visible("-") && Visible("0")
    ensures Visible("ShADadFf") && Visible("10") && Visible("1000")
    ensures Visible("auth_") && Visible("_") && Visible("success") && Visible("failure") && Visible("_vpn")
  {
  }

  lemma VisibleHasNone(s: string, c: char)
    requires Visible(s) && IsControl(c)
    ensures c !in s
  {
  }

  lemma ServiceHasNone(l: Login, c: char)
    requires IsControl(c) && c !in l.username
    ensures c !in Service(l)
  {
    FixedFieldsAreVisible();
  }

  lemma FieldsHaveNone(l: Login, c: char)
    requires IsControl(c) && c !in l.ts && c !in l.uid && c !in l.ip && c !in l.username
    ensures Free(Fields(l), c)
  {
    FixedFieldsAreVisible();
    ServiceHasNone(l, c);
    var f := Fields(l);
    forall k | 0 <= k < 20 ensures c !in f[k] {
      if k > 2 && k != 7 {
        assert Visible(f[k]);
        VisibleHasNone(f[k], c);
      }
    }
  }

  lemma DissectJoined(f: seq<string>)
    requires |f| == 20 && Free(f, TAB)
    ensures Dissect(Join(f, TAB)) == Some(f)
  {
    SplitInvertsJoin(f, TAB);
    assert f[19..] == [f[19]];
    assert f[..19] + [f[19]] == f;
  }

  lemma FieldsComeBack(l: Login)
    requires Printable(l)
    ensures Dissect(Join(Fields(l), TAB)) == Some(Fields(l))
  {
    FieldsHaveNone(l, TAB);
    DissectJoined(Fields(l));
  }

  // The service field without its VPN suffix, and that suffix.
  lemma SuffixComesBack(l: Login)
    ensures EndsWith(Service(l), "_vpn") <==> l.isVpn
    ensures l.isVpn ==> Service(l)[..|Service(l)| - 4] == Service(l.(isVpn := false))
  {
    var s := Service(l);
    if !l.isVpn {
      assert s[|s| - 1] == Status(l.success)[6];
    }
  }

  /** The pieces of the user name, then the status. */
  lemma {:induction false} SplitUserAndStatus(username: string, status: string)
    requires '_' !in status
    ensures Split(username + "_" + status, '_') == Split(username, '_') + [status]
  {
    var s := username + "_" + status;
    if username == "" {
      assert s == "" + ['_'] + status;
      SplitFirst("", '_', status);
      SplitWithout(status, '_');
    } else {
      SplitUserAndStatus(username[1..], status);
      assert s[1..] == username[1..] + "_" + status;
    }
  }

  lemma SplitService(l: Login)
    ensures Split(Service(l.(isVpn := false)), '_') == ["auth"] + Split(l.username, '_') + [Status(l.success)]
  {
    var rest := l.username + "_" + Status(l.success);
    assert Service(l.(isVpn := false)) == "auth" + ['_'] + rest;
    SplitFirst("auth", '_', rest);
    SplitUserAndStatus(l.username, Status(l.success));
  }

  /** What the decoder finds, for any user name at all: the name up to its first underscore, the outcome
      in the piece after that, and the VPN suffix as written. */
  lemma ServiceDecodes(l: Login)
    ensures var pieces := Split(l.username, '_') + [Status(l.success)];
            DecodeService(Service(l)) == Some((pieces[0], pieces[1] == "success", l.isVpn))
  {
    SuffixComesBack(l);
    SplitService(l);
    assert "auth_" <= Service(l);
  }

  lemma PiecesTellUnderscores(username: string)
    ensures |Split(username, '_')| == 1 <==> '_' !in username
    ensures '_' !in username ==> Split(username, '_') == [username]
  {
    JoinInvertsSplit(username, '_');
    if '_' !in username {
      SplitWithout(username, '_');
    }
  }

  /** The user name comes back if and only if it has no underscore; the outcome if and only if the name has
      none, or its second piece is "success" exactly when the login succeeded. */
  lemma UserComesBackExactly(l: Login)
    ensures DecodeService(Service(l)).Some?
    ensures var d, pieces := DecodeService(Service(l)).value, Split(l.username, '_');
            && (d.0 == l.username <==> '_' !in l.username)
            && (d.1 == l.success <==> |pieces| == 1 || (pieces[1] == "success" <==> l.success))
            && (|pieces| == 1 <==> '_' !in l.username)
            && d.2 == l.isVpn
  {
    ServiceDecodes(l);
    PiecesTellUnderscores(l.username);
    JoinInvertsSplit(l.username, '_');
    assert "success"[0] != "failure"[0];
  }

  /** With an underscore the outcome can come back wrong as well: a failure of "<name>_success" reads as a
      success of <name>. */
  lemma OutcomeOfAnother(l: Login, name: string)
    requires '_' !in name && l.username == name + "_success" && !l.success
    ensures DecodeService(Service(l)) == Some((name, true, l.isVpn))
  {
    ServiceDecodes(l);
    assert name + "_success" == name + "_" + "success";
    SplitUserAndStatus(name, "success");
    SplitWithout(name, '_');
  }

  // ---- The VPN flag of the event ----

  // A string in which none of the letters of "vpn" occurs, upper or lower case.
  predicate Plain(s: string) {
    forall i :: 0 <= i < |s| ==> LowerChar(s[i]) != 'v' && LowerChar(s[i]) != 'p' && LowerChar(s[i]) != 'n'
  }

  lemma MentionedInMiddle(before: string, s: string, after: string)
    requires Plain(before) && Plain(after)
    ensures MentionsVpn(before + s + after) <==> MentionsVpn(s)
  {
    var all, n := before + s + after, |before|;
    assert forall j :: 0 <= j < n ==> all[j] == before[j];
    assert forall j :: n + |s| <= j < |all| ==> all[j] == after[j - n - |s|];
    if MentionsVpn(all) {
      var i :| 0 <= i < |all| && VpnAt(all, i);
      assert VpnAt(s, i - n);
    }
    if MentionsVpn(s) {
      var i :| 0 <= i < |s| && VpnAt(s, i);
      assert VpnAt(all, n + i);
    }
  }

  lemma MentionExactly(l: Login)
    ensures MentionsVpn(Service(l)) <==> l.isVpn || MentionsVpn(l.username)
  {
    var s := Service(l);
    if l.isVpn {
      assert VpnAt(s, |s| - 3);
    } else {
      assert s == "auth_" + l.username + ("_" + Status(l.success));
      MentionedInMiddle("auth_", l.username, "_" + Status(l.success));
    }
  }

  /** A login written to the log and read back, for every user name without underscore, tab or newline: the
      same user, outcome, VPN suffix, address and id. The event counts as VPN exactly when it was
      written so, the user name mentions it, or the address has a known prefix. */
  lemma LoginComesBack(l: Login)
    requires Printable(l) && '_' !in l.username
    ensures ReadLogin(Join(Fields(l), TAB))
            == Some(Event(l.uid, l.ip, l.username, l.success, l.isVpn,
                          l.isVpn || MentionsVpn(l.username) || KnownVpnPrefix(l.ip)))
  {
    FieldsComeBack(l);
    UserComesBackExactly(l);
    MentionExactly(l);
  }

  // ---- The whole file ----

  function Written(logins: seq<Login>): string {
    if logins == [] then "" else Line(logins[0]) + Written(logins[1..])
  }

  function Bodies(logins: seq<Login>): (bodies: seq<string>)
    ensures |bodies| == |logins|
    ensures forall i :: 0 <= i < |logins| ==> bodies[i] == Join(Fields(logins[i]), TAB)
  {
    if logins == [] then [] else [Join(Fields(logins[0]), TAB)] + Bodies(logins[1..])
  }

  lemma {:induction false} JoinWithout(parts: seq<string>, sep: char, c: char)
    requires |parts| >= 1 && Free(parts, c) && c != sep
    ensures c !in Join(parts, sep)
  {
    if |parts| > 1 {
      assert Free(parts[1..], c);
      JoinWithout(parts[1..], sep, c);
    }
  }

  /** Every login appended to the file is read back from it, in order. */
  lemma {:induction false} FileComesBack(logins: seq<Login>)
    requires forall l <- logins :: Printable(l)
    ensures Messages(Written(logins)) == Bodies(logins)
  {
    if logins != [] {
      var body := Join(Fields(logins[0]), TAB);
      FileComesBack(logins[1..]);
      assert logins[0] in logins;
      FieldsHaveNone(logins[0], NEWLINE);
      JoinWithout(Fields(logins[0]), TAB, NEWLINE);
      SplitFirst(body, NEWLINE, Written(logins[1..]));
      assert Written(logins) == body + [NEWLINE] + Written(logins[1..]);
    }
  }
}
