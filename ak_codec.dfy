/**
 * The Gasera One AK text protocol: a request is framed by STX and ETX around
 * `' ' CMD ' K' channel ' ' data`, and a response is accepted when it is
 * framed the same way, its body split into tokens by the regular expression
 * `[^\s"]+|"[^"]*"`.
 */
module AkCodec {
  import opened Wrappers
  import opened PyText

  const STX: char := '\U{02}'
  const ETX: char := '\U{03}'

  /** `format_ak_request(command, channel, data)`; the command text is not checked. */
  function FormatAkRequest(command: string, channel: string, data: string): (r: string)
    ensures |r| == |command| + |channel| + |data| + 6
    ensures r[0] == STX && r[|r| - 1] == ETX
    ensures r[1] == ' ' && r[2..2 + |command|] == command
  {
    [STX, ' '] + command + " K" + channel + " " + data + [ETX]
  }

  // ---------------------------------------------------------------------------
  // The tokeniser

  /** A character the first alternative `[^\s"]` matches. */
  predicate IsPlain(c: char) { !IsSpace(c) && c != '"' }

  predicate NotPlain(c: char) { !IsPlain(c) }

  /** A match of `[^\s"]+`. */
  predicate IsBareToken(t: string) {
    |t| > 0 && forall i :: 0 <= i < |t| ==> IsPlain(t[i])
  }

  /** A match of `"[^"]*"`: the quotes are part of the token. */
  predicate IsQuotedToken(t: string) {
    |t| >= 2 && t[0] == '"' && t[|t| - 1] == '"' && forall i :: 0 < i < |t| - 1 ==> t[i] != '"'
  }

  predicate IsToken(t: string) { IsBareToken(t) || IsQuotedToken(t) }

  /**
   * `re.findall(r'([^\s"]+|\"[^\"]*\")', s)`: scanning left to right, a plain
   * character starts the longest plain run; a quote starts a token reaching the
   * next quote, and is skipped when no quote follows; anything else is skipped.
   */
  function Tokenize(s: string): (ts: seq<string>)
    ensures forall i :: 0 <= i < |ts| ==> IsToken(ts[i])
    decreases |s|
  {
    if s == [] then []
    else if IsPlain(s[0]) then
      var k := IndexOf(s, NotPlain);
      [s[..k]] + Tokenize(s[k..])
    else if s[0] == '"' then
      var q := IndexOf(s[1..], IsQuote);
      if q < |s| - 1 then
        assert s[q + 1] == '"' && forall i :: 0 < i < q + 1 ==> s[i] == s[1..][i - 1];
        [s[..q + 2]] + Tokenize(s[q + 2..])
      else Tokenize(s[1..])
    else Tokenize(s[1..])
  }

  lemma TokenizeSkipSpace(s: string)
    requires s != [] && IsSpace(s[0])
    ensures Tokenize(s) == Tokenize(s[1..])
  {
  }

  /** A token followed by whitespace (or nothing) is scanned as exactly that token. */
  lemma TokenizeCons(t: string, rest: string)
    requires IsToken(t) && (rest == [] || IsSpace(rest[0]))
    ensures Tokenize(t + rest) == [t] + Tokenize(rest)
  {
    var s := t + rest;
    assert s[..|t|] == t && s[|t|..] == rest;
    if IsBareToken(t) {
      assert IsPlain(s[0]);
      var k := IndexOf(s, NotPlain);
      assert forall i :: 0 <= i < |t| ==> IsPlain(s[i]);
      assert |t| < |s| ==> NotPlain(s[|t|]);
      assert k == |t|;
    } else {
      var q := IndexOf(s[1..], IsQuote);
      assert s[1..][|t| - 2] == '"';
      assert forall i :: 0 <= i < |t| - 2 ==> s[1..][i] == t[i + 1];
      assert q == |t| - 2;
    }
  }

  /** Tokens joined by single blanks, then whitespace, scan back to the same tokens. */
  lemma {:induction false} TokenizeJoin(ts: seq<string>, tail: string)
    requires forall i :: 0 <= i < |ts| ==> IsToken(ts[i])
    requires tail == [] || IsSpace(tail[0])
    ensures Tokenize(Join(ts, " ") + tail) == ts + Tokenize(tail)
  {
    if ts == [] {
      assert Join(ts, " ") + tail == tail;
    } else if |ts| == 1 {
      TokenizeCons(ts[0], tail);
    } else {
      TokenizeJoin(ts[1..], tail);
      TokenizeJoinStep(ts, tail);
    }
  }

  /** The step of `TokenizeJoin`: the first token, then the blank before the rest. */
  lemma TokenizeJoinStep(ts: seq<string>, tail: string)
    requires |ts| >= 2 && IsToken(ts[0])
    requires Tokenize(Join(ts[1..], " ") + tail) == ts[1..] + Tokenize(tail)
    ensures Tokenize(Join(ts, " ") + tail) == ts + Tokenize(tail)
  {
    var rest := Join(ts[1..], " ") + tail;
    JoinCons(ts, tail);
    TokenizeCons(ts[0], " " + rest);
    TokenizeSkipSpace(" " + rest);
    assert (" " + rest)[1..] == rest;
    ConsAppend(ts, Tokenize(tail));
  }

  /** Joining two or more pieces: the first, a blank, then the rest joined. */
  lemma JoinCons(ts: seq<string>, tail: string)
    requires |ts| >= 2
    ensures Join(ts, " ") + tail == ts[0] + (" " + (Join(ts[1..], " ") + tail))
  {
  }

  lemma ConsAppend<T>(x: seq<T>, y: seq<T>)
    requires x != []
    ensures [x[0]] + (x[1..] + y) == x + y
  {
    assert x == [x[0]] + x[1..];
  }

  // ---------------------------------------------------------------------------
  // Responses

  /** `response.startswith(b'\x02') and response.endswith(b'\x03')`. */
  predicate IsFramed(response: string) {
    |response| >= 1 && response[0] == STX && response[|response| - 1] == ETX
  }

  /** `clean_ak_response`: the tokens between the frame bytes, or `None` for an unframed reply. */
  function CleanAkResponse(response: string): (r: Option<seq<string>>)
    ensures r.Some? <==> IsFramed(response)
    ensures r.Some? ==> |response| >= 2 && r.value == Tokenize(response[1..|response| - 1])
    ensures r.Some? ==> forall i :: 0 <= i < |r.value| ==> IsToken(r.value[i])
  {
    if IsFramed(response) then Some(Tokenize(response[1..|response| - 1])) else None
  }

  /** The tokens a well-formed request carries. */
  function RequestTokens(command: string, channel: string, data: string): seq<string> {
    [command, "K" + channel] + (if data == [] then [] else [data])
  }

  /**
   * A request read back as a response: the framing is accepted and the tokens are
   * the command, `K` with the channel, and the data when there is any.
   */
  lemma AkRequestRoundTrip(command: string, channel: string, data: string)
    requires IsToken(command)
    requires forall i :: 0 <= i < |channel| ==> IsPlain(channel[i])
    requires data == [] || IsToken(data)
    ensures CleanAkResponse(FormatAkRequest(command, channel, data)) == Some(RequestTokens(command, channel, data))
  {
    var r := FormatAkRequest(command, channel, data);
    var ts := RequestTokens(command, channel, data);
    var k := "K" + channel;
    assert IsBareToken(k) by {
      forall i | 0 <= i < |k| ensures IsPlain(k[i]) {
        if i > 0 { assert k[i] == channel[i - 1]; }
      }
    }
    var tail := if data == [] then " " else [];
    RequestBody(command, channel, data);
    TokenizeSkipSpace(r[1..|r| - 1]);
    TokenizeJoin(ts, tail);
    if data == [] {
      TokenizeSkipSpace(tail);
      assert tail[1..] == [];
    }
    assert Tokenize(tail) == [];
    assert ts + [] == ts;
  }

  /** A request's body: a blank, then its tokens joined by blanks, then a blank when there is no data. */
  lemma RequestBody(command: string, channel: string, data: string)
    ensures var r := FormatAkRequest(command, channel, data);
      r[1..|r| - 1][1..] == Join(RequestTokens(command, channel, data), " ") + (if data == [] then " " else [])
      && r[1..|r| - 1][0] == ' '
  {
    var r := FormatAkRequest(command, channel, data);
    var ts := RequestTokens(command, channel, data);
    var k := "K" + channel;
    var body := r[1..|r| - 1];
    assert body == " " + command + " K" + channel + " " + data;
    var tail := if data == [] then " " else [];
    var line := command + " " + k + (if data == [] then [] else " " + data);
    assert Join(ts, " ") == line by {
      assert ts[1..] == [k] + ts[2..];
      if data == [] {
        assert Join(ts[1..], " ") == k;
      } else {
        assert Join(ts[1..], " ") == k + " " + data;
      }
    }
    assert body == " " + (line + tail);
  }

  /** A framed reply of blanks only carries no tokens. */
  lemma BlankReplyHasNoTokens(n: nat)
    ensures CleanAkResponse([STX] + seq(n, _ => ' ') + [ETX]) == Some([])
  {
    var r := [STX] + seq(n, _ => ' ') + [ETX];
    BlanksHaveNoTokens(n);
    assert r[1..|r| - 1] == seq(n, _ => ' ');
  }

  lemma {:induction false} BlanksHaveNoTokens(n: nat)
    ensures Tokenize(seq(n, _ => ' ')) == []
  {
    if n > 0 {
      var w := seq(n, _ => ' ');
      BlanksHaveNoTokens(n - 1);
      assert w[1..] == seq(n - 1, _ => ' ');
    }
  }
}
