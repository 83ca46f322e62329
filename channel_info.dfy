/** Channel information: the "S C N L" code of a seismic channel (station,
    channel, network, location), how it is formatted, how it is parsed back
    with Java's String.split(" "), and the equality and hash defined by the
    formatted code. */
module Channels {
  import opened JavaLang

  const Empty: string := ""

  // ---------------------------------------------------------------------
  // Strings split at single spaces

  /** The tokens separated by single spaces. */
  function Join(tokens: seq<string>): string {
    if |tokens| == 0 then ""
    else if |tokens| == 1 then tokens[0]
    else tokens[0] + " " + Join(tokens[1..])
  }

  /** Whether a string holds no space. */
  predicate NoSpace(t: string) {
    forall i :: 0 <= i < |t| ==> t[i] != ' '
  }

  /** Whether every character of a string is a space. */
  predicate AllSpaces(s: string) {
    forall i :: 0 <= i < |s| ==> s[i] == ' '
  }

  /** The pieces between single spaces, keeping every empty piece: a string
      with n spaces gives n + 1 pieces. */
  function SplitAtSpaces(s: string): (tokens: seq<string>)
    ensures |tokens| >= 1
    ensures forall i :: 0 <= i < |tokens| ==> NoSpace(tokens[i])
    ensures Join(tokens) == s
    decreases |s|
  {
    if s == [] then [[]]
    else
      var rest := SplitAtSpaces(s[1..]);
      if s[0] == ' ' then
        assert [' '] + Join(rest) == s;
        [[]] + rest
      else
        var tokens := [[s[0]] + rest[0]] + rest[1..];
        assert tokens[1..] == rest[1..];
        assert Join(tokens) == [s[0]] + Join(rest);
        tokens
  }

  /** The tokens without their trailing empty tokens. */
  function DropTrailingEmpty(tokens: seq<string>): (r: seq<string>)
    ensures r <= tokens
    ensures r == [] || r[|r| - 1] != ""
    ensures forall i :: |r| <= i < |tokens| ==> tokens[i] == ""
  {
    if tokens == [] || tokens[|tokens| - 1] != "" then tokens
    else DropTrailingEmpty(tokens[..|tokens| - 1])
  }

  /** Java's `s.split(" ")`: split at every single space, keep leading and
      interior empty tokens, discard trailing empty tokens; a string without
      a space (the empty string included) is its own single token. */
  function JavaSplit(s: string): (tokens: seq<string>)
    ensures forall i :: 0 <= i < |tokens| ==> NoSpace(tokens[i])
    ensures |tokens| > 1 ==> tokens[|tokens| - 1] != ""
  {
    if ' ' !in s then [s] else DropTrailingEmpty(SplitAtSpaces(s))
  }

  /** The split and its tokens joined again differ only by the spaces the
      trailing empty tokens stood for. */
  lemma {:induction false} JoinDropTrailingEmpty(tokens: seq<string>)
    requires |tokens| >= 1
    ensures exists k: nat :: Join(tokens) == Join(DropTrailingEmpty(tokens)) + Spaces(k)
  {
    if tokens[|tokens| - 1] != "" {
      assert Join(tokens) == Join(DropTrailingEmpty(tokens)) + Spaces(0);
    } else if |tokens| == 1 {
      assert Join(tokens) == "" == Join(DropTrailingEmpty(tokens)) + Spaces(0);
    } else {
      var init := tokens[..|tokens| - 1];
      JoinDropTrailingEmpty(init);
      var k: nat :| Join(init) == Join(DropTrailingEmpty(init)) + Spaces(k);
      JoinSnoc(init, "");
      assert tokens == init + [""];
      assert DropTrailingEmpty(tokens) == DropTrailingEmpty(init);
      assert Join(tokens) == Join(init) + " ";
      assert Spaces(k) + " " == Spaces(k + 1);
      assert Join(tokens) == Join(DropTrailingEmpty(tokens)) + Spaces(k + 1);
    }
  }

  /** `k` spaces. */
  function Spaces(k: nat): (s: string)
    ensures |s| == k && AllSpaces(s)
  {
    if k == 0 then "" else Spaces(k - 1) + " "
  }

  /** Joining with one more token appends a space and that token. */
  lemma {:induction false} JoinSnoc(tokens: seq<string>, t: string)
    requires |tokens| >= 1
    ensures Join(tokens + [t]) == Join(tokens) + " " + t
  {
    if |tokens| > 1 {
      assert (tokens + [t])[1..] == tokens[1..] + [t];
      JoinSnoc(tokens[1..], t);
    }
  }

  /** What String.split(" ") returns joined back with single spaces is the
      input less some trailing spaces. */
  lemma JavaSplitJoin(s: string)
    ensures exists k: nat :: s == Join(JavaSplit(s)) + Spaces(k)
  {
    if ' ' !in s {
      assert s == Join(JavaSplit(s)) + Spaces(0);
    } else {
      JoinDropTrailingEmpty(SplitAtSpaces(s));
    }
  }

  /** The split is empty exactly for a non-empty string of spaces. */
  lemma JavaSplitEmpty(s: string)
    ensures JavaSplit(s) == [] <==> s != "" && AllSpaces(s)
  {
    if JavaSplit(s) == [] {
      JavaSplitJoin(s);
      var k: nat :| s == Join(JavaSplit(s)) + Spaces(k);
      assert ' ' in s;
    }
    if s != "" && AllSpaces(s) {
      assert s[0] == ' ';
      SplitSpaces(s);
      DropAllEmpty(SplitAtSpaces(s));
    }
  }

  /** A string of spaces splits into empty pieces only. */
  lemma {:induction false} SplitSpaces(s: string)
    requires AllSpaces(s)
    ensures forall i :: 0 <= i < |SplitAtSpaces(s)| ==> SplitAtSpaces(s)[i] == ""
    decreases |s|
  {
    if s != [] {
      SplitSpaces(s[1..]);
    }
  }

  /** Only empty tokens: nothing is left. */
  lemma {:induction false} DropAllEmpty(tokens: seq<string>)
    requires forall i :: 0 <= i < |tokens| ==> tokens[i] == ""
    ensures DropTrailingEmpty(tokens) == []
  {
    if tokens != [] {
      DropAllEmpty(tokens[..|tokens| - 1]);
    }
  }

  /** Splitting the join of space-free tokens gives the tokens back. */
  lemma {:induction false} SplitJoin(tokens: seq<string>)
    requires |tokens| >= 1
    requires forall i :: 0 <= i < |tokens| ==> NoSpace(tokens[i])
    ensures SplitAtSpaces(Join(tokens)) == tokens
  {
    if |tokens| == 1 {
      SplitNoSpace(tokens[0]);
    } else {
      SplitJoin(tokens[1..]);
      SplitTokenThenSpace(tokens[0], Join(tokens[1..]));
    }
  }

  /** A string without a space is one token. */
  lemma {:induction false} SplitNoSpace(t: string)
    requires NoSpace(t)
    ensures SplitAtSpaces(t) == [t]
    decreases |t|
  {
    if t != [] {
      SplitNoSpace(t[1..]);
      assert [t[0]] + t[1..] == t;
    }
  }

  /** A space-free token followed by a space splits off as the first token. */
  lemma {:induction false} SplitTokenThenSpace(t: string, rest: string)
    requires NoSpace(t)
    ensures SplitAtSpaces(t + " " + rest) == [t] + SplitAtSpaces(rest)
    decreases |t|
  {
    if t == [] {
      assert t + " " + rest == [' '] + rest;
      assert (t + " " + rest)[1..] == rest;
    } else {
      var u := t + " " + rest;
      assert u[0] == t[0] != ' ';
      assert u[1..] == t[1..] + " " + rest;
      SplitTokenThenSpace(t[1..], rest);
      var tail := SplitAtSpaces(u[1..]);
      assert tail == [t[1..]] + SplitAtSpaces(rest);
      assert tail[0] == t[1..] && tail[1..] == SplitAtSpaces(rest);
      assert SplitAtSpaces(u) == [[t[0]] + tail[0]] + tail[1..];
      assert [t[0]] + t[1..] == t;
    }
  }

  /** String.split(" ") inverts joining with single spaces when no token
      holds a space and the last token is not empty (a single token may be). */
  lemma JavaSplitOfJoin(tokens: seq<string>)
    requires |tokens| >= 1
    requires forall i :: 0 <= i < |tokens| ==> NoSpace(tokens[i])
    requires |tokens| > 1 ==> tokens[|tokens| - 1] != ""
    ensures JavaSplit(Join(tokens)) == tokens
  {
    if |tokens| == 1 {
      assert ' ' !in tokens[0];
    } else {
      SplitJoin(tokens);
      assert Join(tokens) == tokens[0] + " " + Join(tokens[1..]);
      assert Join(tokens)[|tokens[0]|] == ' ';
    }
  }

  // ---------------------------------------------------------------------
  // Channel information

  /** The formatted "S C N L" code: station, channel and network separated
      by spaces, then a space and the location when the location is not empty. */
  function FormattedScnl(station: string, channel: string, network: string, location: string): (r: string)
    ensures r == Join([station, channel, network] + if |location| > 0 then [location] else [])
  {
    JoinFields(station, channel, network, location);
    station + " " + channel + " " + network + (if |location| > 0 then " " + location else Empty)
  }

  /** Joining the three or four fields of a code. */
  lemma JoinFields(station: string, channel: string, network: string, location: string)
    ensures Join([station, channel, network] + []) == station + " " + channel + " " + network
    ensures Join([station, channel, network] + [location]) == station + " " + channel + " " + network + " " + location
  {
    assert [station, channel, network] + [location] == [station, channel, network, location];
    assert [station, channel, network] + [] == [station, channel, network];
    assert Join([network]) == network;
    assert [channel, network][1..] == [network];
    assert Join([channel, network]) == channel + " " + network;
    assert [station, channel, network][1..] == [channel, network];
    assert [network, location][1..] == [location];
    assert Join([network, location]) == network + " " + location;
    assert [channel, network, location][1..] == [network, location];
    assert Join([channel, network, location]) == channel + " " + network + " " + location;
    assert [station, channel, network, location][1..] == [channel, network, location];
  }

  /** A latitude or longitude: absent (NaN), the unparsed token of a code
      string, or a value in degrees. */
  datatype Coordinate = NotGiven | Token(text: string) | Degrees(value: real)

  datatype StationInfo = StationInfo(station: string, network: string,
                                     latitude: Coordinate, longitude: Coordinate,
                                     siteName: Option<string>)

  /** Channel information: the station, the channel and location names, and
      the formatted code computed once on construction. */
  datatype ChannelInfo = ChannelInfo(stationInfo: StationInfo, channel: string, location: string,
                                     formattedScnl: string)
  {
    function Station(): string { stationInfo.station }
    function Network(): string { stationInfo.network }
  }

  /** The stored code is the formatted code of the stored fields. */
  predicate Consistent(ci: ChannelInfo) {
    ci.formattedScnl == FormattedScnl(ci.Station(), ci.channel, ci.Network(), ci.location)
  }

  /** ChannelInfo(StationInfo, channel, location). */
  function FromStation(stationInfo: StationInfo, channel: string, location: string): (ci: ChannelInfo)
    ensures Consistent(ci)
    ensures ci.stationInfo == stationInfo && ci.channel == channel && ci.location == location
  {
    ChannelInfo(stationInfo, channel, location,
                FormattedScnl(stationInfo.station, channel, stationInfo.network, location))
  }

  /** ChannelInfo(station, channel, network, location, latitude, longitude, siteName). */
  function FromFields(station: string, channel: string, network: string, location: string,
                      latitude: real, longitude: real, siteName: string): (ci: ChannelInfo)
    ensures Consistent(ci)
    ensures ci.Station() == station && ci.channel == channel && ci.Network() == network && ci.location == location
  {
    FromStation(StationInfo(station, network, Degrees(latitude), Degrees(longitude), Some(siteName)),
                channel, location)
  }

  /** ChannelInfo(String): split the code at single spaces; the first token
      is the station; with three tokens or more the next two are channel and
      network and a fourth is the location; a fifth and sixth are latitude
      and longitude.  A non-empty code of spaces only splits into nothing,
      and reading its first token throws. */
  function Parse(s: string): (r: Result<ChannelInfo>)
    ensures r.Err? <==> s != "" && AllSpaces(s)
    ensures r.Ok? ==> Consistent(r.value)
    ensures r.Ok? ==> NoSpace(r.value.Station()) && NoSpace(r.value.channel) &&
                      NoSpace(r.value.Network()) && NoSpace(r.value.location)
    ensures r.Ok? ==>
              var ss := JavaSplit(s);
              && |ss| >= 1
              && r.value.Station() == ss[0]
              && (|ss| <= 2 ==> r.value.channel == "" && r.value.Network() == "" && r.value.location == "")
              && (|ss| > 2 ==> r.value.channel == ss[1] && r.value.Network() == ss[2] &&
                               r.value.location == (if |ss| > 3 then ss[3] else ""))
              && (|ss| > 4 <==> r.value.stationInfo.latitude.Token?)
              && (|ss| > 5 <==> r.value.stationInfo.longitude.Token?)
  {
    JavaSplitEmpty(s);
    var ss := JavaSplit(s);
    if |ss| == 0 then Err(ArrayIndexOutOfBounds)
    else
      var station := ss[0];
      var channel := if |ss| > 2 then ss[1] else Empty;
      var network := if |ss| > 2 then ss[2] else Empty;
      var location := if |ss| > 3 then ss[3] else Empty;
      var latitude := if |ss| > 4 then Token(ss[4]) else NotGiven;
      var longitude := if |ss| > 5 then Token(ss[5]) else NotGiven;
      Ok(FromStation(StationInfo(station, network, latitude, longitude, None), channel, location))
  }

  /** Parsing a formatted code gives back station, channel, network and
      location when no field holds a space and the code does not end in an
      empty field. */
  lemma ParseFormatted(station: string, channel: string, network: string, location: string)
    requires NoSpace(station) && NoSpace(channel) && NoSpace(network) && NoSpace(location)
    requires network != "" || location != ""
    ensures var r := Parse(FormattedScnl(station, channel, network, location));
            r.Ok? && r.value.Station() == station && r.value.channel == channel &&
            r.value.Network() == network && r.value.location == location &&
            r.value.formattedScnl == FormattedScnl(station, channel, network, location)
  {
    var tokens := [station, channel, network] + if |location| > 0 then [location] else [];
    JavaSplitOfJoin(tokens);
  }

  /** A code of two tokens is read as a station alone: the channel needs a
      network after it. */
  lemma ParseTwoTokens(station: string, channel: string)
    requires NoSpace(station) && NoSpace(channel) && channel != ""
    ensures var r := Parse(station + " " + channel);
            r.Ok? && r.value.Station() == station && r.value.channel == "" &&
            r.value.Network() == "" && r.value.location == ""
  {
    assert [station, channel][1..] == [channel];
    assert Join([station, channel]) == station + " " + channel;
    JavaSplitOfJoin([station, channel]);
  }

  /** With an empty network and location the code ends in a space, whose
      empty token split drops: the channel is lost on parsing. */
  lemma ParseLosesChannelWithoutNetwork(station: string, channel: string)
    requires NoSpace(station) && NoSpace(channel) && channel != ""
    ensures var r := Parse(FormattedScnl(station, channel, "", ""));
            r.Ok? && r.value.Station() == station && r.value.channel == ""
  {
    var s := FormattedScnl(station, channel, "", "");
    assert s == station + " " + channel + " ";
    var all := [station, channel, ""];
    assert all[1..] == [channel, ""] && all[1..][1..] == [""];
    assert Join([""]) == "";
    assert Join([channel, ""]) == channel + " ";
    assert Join(all) == s;
    SplitJoin(all);
    assert DropTrailingEmpty(all) == [station, channel];
    assert s[|station|] == ' ';
  }

  // ---------------------------------------------------------------------
  // equals, hashCode, toString

  /** equals: the formatted codes are equal.  Channel informations built
      from the same four fields are equal. */
  predicate Equals(a: ChannelInfo, b: ChannelInfo)
    ensures (Consistent(a) && Consistent(b) && a.Station() == b.Station() && a.channel == b.channel &&
             a.Network() == b.Network() && a.location == b.location) ==> Equals(a, b)
  {
    a.formattedScnl == b.formattedScnl
  }

  /** toString: the stored code, which for a channel information built by
      a constructor is the formatted code of its four fields. */
  function ToString(ci: ChannelInfo): (r: string)
    ensures Consistent(ci) ==>
              r == Join([ci.Station(), ci.channel, ci.Network()] + if |ci.location| > 0 then [ci.location] else [])
  {
    ci.formattedScnl
  }

  /** 31 to the power n. */
  function Pow31(n: nat): (r: nat)
    ensures r >= 1
  {
    if n == 0 then 1 else 31 * Pow31(n - 1)
  }

  /** The documented hash of a string with unbounded arithmetic:
      s[0]*31^(n-1) + s[1]*31^(n-2) + ... + s[n-1]. */
  function HashSum(s: string): int {
    if s == [] then 0 else s[0] as int * Pow31(|s| - 1) + HashSum(s[1..])
  }

  /** Appending a character multiplies the sum by 31 and adds the character. */
  lemma {:induction false} HashSumSnoc(s: string, c: char)
    ensures HashSum(s + [c]) == 31 * HashSum(s) + c as int
    decreases |s|
  {
    if s == [] {
      assert [c][1..] == [];
    } else {
      assert (s + [c])[1..] == s[1..] + [c];
      HashSumSnoc(s[1..], c);
      assert Pow31(|s|) == 31 * Pow31(|s| - 1);
    }
  }

  /** String.hashCode, computed character by character as `31 * h + c` in
      32-bit arithmetic: the documented sum wrapped to an `int`. */
  function StringHash(s: string): (r: Int32)
    ensures r == Wrap32(HashSum(s))
    decreases |s|
  {
    if s == [] then 0
    else
      var init, c := s[..|s| - 1], s[|s| - 1];
      assert s == init + [c];
      HashSumSnoc(init, c);
      Wrap32MulAdd(31, HashSum(init), c as int);
      Wrap32(31 * StringHash(init) + c as int)
  }

  /** hashCode: the hash of the formatted code. */
  function HashCode(ci: ChannelInfo): (r: Int32)
    ensures r == Wrap32(HashSum(ToString(ci)))
  {
    StringHash(ci.formattedScnl)
  }

  /** equals is an equivalence that agrees with toString, and equal
      channel informations have equal hash codes. */
  lemma EqualsContract(a: ChannelInfo, b: ChannelInfo, c: ChannelInfo)
    ensures Equals(a, a)
    ensures Equals(a, b) ==> Equals(b, a)
    ensures Equals(a, b) && Equals(b, c) ==> Equals(a, c)
    ensures Equals(a, b) <==> ToString(a) == ToString(b)
    ensures Equals(a, b) ==> HashCode(a) == HashCode(b)
  {
  }

  /** Coordinates and site name play no part in equality. */
  lemma EqualsIgnoresPosition(station: string, channel: string, network: string, location: string,
                              lat1: real, lon1: real, site1: string, lat2: real, lon2: real, site2: string)
    ensures Equals(FromFields(station, channel, network, location, lat1, lon1, site1),
                   FromFields(station, channel, network, location, lat2, lon2, site2))
  {
  }

  /** For channel informations whose fields hold no space and whose network
      is not empty, equality is equality of station, channel, network and
      location. */
  lemma EqualsIffSameScnl(a: ChannelInfo, b: ChannelInfo)
    requires Consistent(a) && Consistent(b)
    requires NoSpace(a.Station()) && NoSpace(a.channel) && NoSpace(a.Network()) && NoSpace(a.location)
    requires NoSpace(b.Station()) && NoSpace(b.channel) && NoSpace(b.Network()) && NoSpace(b.location)
    requires a.Network() != "" && b.Network() != ""
    ensures Equals(a, b) <==>
              a.Station() == b.Station() && a.channel == b.channel &&
              a.Network() == b.Network() && a.location == b.location
  {
    ParseFormatted(a.Station(), a.channel, a.Network(), a.location);
    ParseFormatted(b.Station(), b.channel, b.Network(), b.location);
  }
}
