/** What receivers hand to workers, and the numbers a client puts in a frame. */
module Jobs {

  datatype JobData = JobData(socket: nat, direction: int, nowStatus: int, msg: string)

  const USER_MAKE: int := 1
  const USER_ENTER: int := 2
  const ROOM_MAKE: int := 3
  const ROOM_ENTER: int := 4
  const WHISPER: int := 6
  const ROOM_INFO: int := 7
  const ROOM_USER_INFO: int := 8
  const FRIEND_INFO: int := 9
  const FRIEND_ADD: int := 10
  const FRIEND_GO: int := 11
  const FRIEND_DELETE: int := 12
  const LOG_OUT: int := 13
  const FILE_SEND: int := 14
  const USER_GOOD: int := 15
  const USER_GOOD_INFO: int := 16
  const CALLCOUNT: int := 20
  const BAN: int := 21
  const EXIT: int := 22

  /** The nickname in a BAN job: as many characters of the message as the status field says,
      a negative number standing for all of them. */
  function BanName(job: JobData): (nick: string)
    ensures nick <= job.msg
    ensures |nick| == if 0 <= job.nowStatus <= |job.msg| then job.nowStatus else |job.msg|
  {
    if 0 <= job.nowStatus <= |job.msg| then job.msg[..job.nowStatus] else job.msg
  }

  /** strtok with a backslash as the only delimiter. */
  function Tokens(s: string): (ts: seq<string>)
    ensures forall t <- ts :: t != "" && '\\' !in t
    decreases |s|
  {
    if s == "" then []
    else if s[0] == '\\' then Tokens(s[1..])
    else
      var t := UpToDelimiter(s);
      [t] + Tokens(s[|t|..])
  }

  function UpToDelimiter(s: string): (t: string)
    ensures t <= s && '\\' !in t
    ensures |t| < |s| ==> s[|t|] == '\\'
    ensures s != "" && s[0] != '\\' ==> t != ""
  {
    if s == "" || s[0] == '\\' then "" else [s[0]] + UpToDelimiter(s[1..])
  }

  lemma {:induction false} UpToFirstDelimiter(a: string, b: string)
    requires '\\' !in a
    ensures UpToDelimiter(a + "\\" + b) == a && UpToDelimiter(a) == a
  {
    if a == "" {
    } else {
      assert (a + "\\" + b)[1..] == a[1..] + "\\" + b;
      UpToFirstDelimiter(a[1..], b);
      assert a == [a[0]] + a[1..];
    }
  }

  /** The three equations that determine the tokens of every string: a delimiter in front is
      skipped, text without one is a token, and text up to one is a token before the others. */
  lemma TokensOfJoined(a: string, b: string)
    requires a != "" && '\\' !in a
    ensures Tokens(a) == [a] && Tokens(a + "\\" + b) == [a] + Tokens(b) && Tokens("\\" + b) == Tokens(b)
  {
    UpToFirstDelimiter(a, b);
    var s := a + "\\" + b;
    assert s[|a|..] == "\\" + b && ("\\" + b)[1..] == b;
    assert a[|a|..] == "";
  }

  /** std::string::find succeeds. */
  predicate Contains(s: string, part: string): (found: bool)
    ensures found <==> exists i :: 0 <= i <= |s| && part <= s[i..]
    decreases |s|
  {
    if part <= s then
      assert s[0..] == s;
      true
    else if s == "" then
      false
    else
      assert forall i :: 1 <= i <= |s| ==> s[i..] == s[1..][i - 1..];
      assert forall i :: 0 <= i <= |s[1..]| ==> s[1..][i..] == s[i + 1..];
      Contains(s[1..], part)
  }
}
