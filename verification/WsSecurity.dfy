/** The WS-Security password digest: Base64 of SHA-1 over nonce, creation time and password. */
module WsSecurity {
  import opened Bytes
  import Base64
  import Sha1Spec
  import Sha1Stream

  datatype UsernameToken = UsernameToken(username: seq<Byte>, passwordText: seq<Byte>, nonceBase64: string,
                                         created: seq<Byte>, passwordDigest: string)

  /** Section 3.1 of the UsernameToken Profile 1.0, for a raw nonce. */
  function ProfileDigest(nonce: seq<Byte>, created: seq<Byte>, password: seq<Byte>): string
    requires |nonce + created + password| < 0x2000_0000_0000_0000
  {
    Base64.Encode(Sha1Spec.Sha1(nonce + created + password))
  }

  method PasswordDigest(nonceBase64: string, created: seq<Byte>, password: seq<Byte>) returns (digest: string)
    ensures var m := Base64.Decode(nonceBase64) + created + password;
            |m| < 0x2000_0000_0000_0000 ==> digest == Base64.Encode(Sha1Spec.Sha1(m))
    ensures forall nonce {:trigger Base64.Encode(nonce)} ::
              nonceBase64 == Base64.Encode(nonce) && |nonce + created + password| < 0x2000_0000_0000_0000 ==>
                digest == ProfileDigest(nonce, created, password)
    ensures |digest| == 28 && digest[27] == '=' && '=' !in digest[..27]
  {
    var nonce := Base64.DecodeString(nonceBase64);
    var sha := Sha1Stream.Sha1(nonce + created + password);
    digest := Base64.EncodeBytes(sha);
    DigestShape(sha);
    forall n {:trigger Base64.Encode(n)} | nonceBase64 == Base64.Encode(n) ensures n == nonce {
      Base64.DecodeEncode(n);
    }
  }

  /** Twenty bytes encode to 28 characters, of which exactly the last is padding. */
  lemma DigestShape(d: seq<Byte>)
    requires |d| == 20
    ensures |Base64.Encode(d)| == 28 && Base64.Encode(d)[27] == '=' && '=' !in Base64.Encode(d)[..27]
  {
    Base64.EncodeSplits(d);
    Base64.DigitsDecode(d);
    DigitsLength(d);
    Base64.PadIsNoDigit();
    assert Base64.Encode(d)[..27] == Base64.Digits(d);
  }

  lemma {:induction false} DigitsLength(x: seq<Byte>)
    ensures |Base64.Digits(x)| == |x| / 3 * 4 + (if |x| % 3 == 0 then 0 else |x| % 3 + 1)
  {
    if |x| > 3 { DigitsLength(x[3..]); }
  }

  method BuildUsernameTokenFixed(username: seq<Byte>, password: seq<Byte>, nonceBase64: string, created: seq<Byte>)
    returns (t: UsernameToken)
    ensures t.username == username && t.passwordText == password
    ensures t.nonceBase64 == nonceBase64 && t.created == created
    ensures forall nonce {:trigger Base64.Encode(nonce)} ::
              t.nonceBase64 == Base64.Encode(nonce) && |nonce + t.created + t.passwordText| < 0x2000_0000_0000_0000 ==>
                t.passwordDigest == ProfileDigest(nonce, t.created, t.passwordText)
  {
    var digest := PasswordDigest(nonceBase64, created, password);
    t := UsernameToken(username, password, nonceBase64, created, digest);
  }

  /** Distinct digests have distinct texts: the header loses nothing of the hash. */
  lemma DigestTextInjective(d1: seq<Byte>, d2: seq<Byte>)
    requires Base64.Encode(d1) == Base64.Encode(d2)
    ensures d1 == d2
  {
    Base64.DecodeEncode(d1);
    Base64.DecodeEncode(d2);
  }
}
