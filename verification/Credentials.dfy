/** The login scanner of the server: user name and password from the decrypted
    credential text. */
module Credentials {
  import opened Bytes

  datatype UserStatus = GotNeither | GotUsername | GotUsernameAndPassword

  /** Field i of s, or the empty string when there is none. */
  function Field(s: Bytes, i: nat): Bytes {
    var f := Split(s, SEP);
    if i < |f| then f[i] else []
  }

  method ScanCredentials(decstr: Bytes) returns (uname: Bytes, passwd: Bytes)
    ensures uname == Field(decstr, 0)
    ensures passwd == Field(decstr, 1)
  {
    var status := GotNeither;
    uname, passwd := [], [];
    for n := 0 to |decstr|
      invariant uname == Field(decstr[..n], 0)
      invariant passwd == Field(decstr[..n], 1)
      invariant status == match |Split(decstr[..n], SEP)|
                          case 1 => GotNeither
                          case 2 => GotUsername
                          case _ => GotUsernameAndPassword
    {
      var x := decstr[n];
      assert decstr[..n + 1][..n] == decstr[..n];
      if x == SEP {
        if status == GotUsername {
          status := GotUsernameAndPassword;
        } else if status == GotNeither {
          status := GotUsername;
        }
      } else if status == GotUsername {
        passwd := passwd + [x];
      } else if status == GotNeither {
        uname := uname + [x];
      }
    }
    assert decstr[..|decstr|] == decstr;
  }

  /** The server reads back what a client sends as `name SEP password` exactly
      when neither contains the separator. */
  lemma CredentialsRoundTrip(uname: Bytes, passwd: Bytes)
    ensures Field(uname + [SEP] + passwd, 0) == uname
         && Field(uname + [SEP] + passwd, 1) == passwd
       <==> SEP !in uname && SEP !in passwd
  {
    SplitConcat(uname, passwd, SEP);
    JoinSplit(uname, SEP);
    JoinSplit(passwd, SEP);
    SplitHead(uname, SEP);
    SplitHead(passwd, SEP);
  }
}
