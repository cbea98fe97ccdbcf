/** Registration and login on the client: the password is stretched with
    scrypt into 32 bytes; bytes 0..16 are the local decryption key, which
    wraps the new Kyber768 private key, and bytes 16..32, in base64, are the
    authentication key sent to the server in place of the password. */
module Auth {
  import opened Bytes
  import opened Wrappers
  import opened Encodings
  import opened Primitives

  const SignupUrl: string := "http://localhost:3000/api/auth/signup"
  const LoginUrl: string := "http://localhost:3000/api/auth/login"

  const PasswordMismatch: string := "Пароли не совпадают"
  const CredentialsMissing: string := "Имя пользователя или пароль должны быть установлены."

  /** The salt and cost parameters of one scrypt call. */
  datatype ScryptParams = ScryptParams(salt: seq<byte>, n: nat, r: nat, p: nat, dkLen: nat)

  /** What registration passes to scrypt: a 16-byte zero salt, N = 16384,
      r = 8, p = 1, dkLen = 32. */
  const SignupScrypt: ScryptParams := ScryptParams(Zeros(16), 16384, 8, 1, 32)

  /** What login passes to scrypt, written out separately as it is there. */
  const LoginScrypt: ScryptParams := ScryptParams(Zeros(16), 16384, 8, 1, 32)

  function DeriveKey(lib: Library, password: string, params: ScryptParams): seq<byte> {
    lib.scrypt(lib.textToBytes(password), params.salt, params.n, params.r, params.p, params.dkLen)
  }

  /** The base64 of bytes 16..32 of the derived key. */
  function AuthenticationKey(key: seq<byte>): string {
    Base64Encode(Slice(key, 16, 32))
  }

  /** Bytes 0..16 of the derived key. */
  function DecryptionKey(key: seq<byte>): seq<byte> {
    Slice(key, 0, 16)
  }

  /** The decryption key and the decoded authentication key are the two
      halves of a 32-byte key, 16 bytes each, and together rebuild it; the
      authentication key is 24 base64 characters. */
  lemma KeySplit(key: seq<byte>)
    requires |key| == 32
    ensures |DecryptionKey(key)| == 16
    ensures |AuthenticationKey(key)| == 24
    ensures Base64Decode(AuthenticationKey(key)).Some?
    ensures DecryptionKey(key) + Base64Decode(AuthenticationKey(key)).value == key
  {
    SixteenBytesText(Slice(key, 16, 32));
    SliceHalvesRebuild(key, 16);
  }

  /** Sixteen bytes are 24 base64 characters, which decode back to them. */
  lemma SixteenBytesText(half: seq<byte>)
    requires |half| == 16
    ensures |Base64Encode(half)| == 24
    ensures Base64Decode(Base64Encode(half)) == Some(half)
  {
    Base64RoundTrip(half);
    Base64EncodeLength(half);
    assert 4 * ((|half| + 2) / 3) == 24;
  }

  // ---------------------------------------------------------------------
  // Registration
  // ---------------------------------------------------------------------

  datatype SignupForm = SignupForm(displayName: string, username: string, password: string, repeatPassword: string)

  /** The JSON body of the registration request. */
  datatype SignupBody = SignupBody(
    displayName: string,
    username: string,
    authenticationKey: string,
    publicKey: string,
    encPrivateKey: string)

  datatype SignupOutcome =
    | Rejected(message: string)
    | WrapFailed
    | SignupPost(url: string, body: SignupBody)

  /** `hex(CBC(decryptionKey, 16 zero bytes, PKCS#7(privateKey)))`; None when
      aes-js throws. */
  function WrapPrivateKey(lib: Library, decryptionKey: seq<byte>, privateKey: seq<byte>): Option<string> {
    match lib.cbcEncrypt(decryptionKey, Zeros(16), Pkcs7Pad(privateKey))
    case None => None
    case Some(c) => Some(HexFromBytes(c))
  }

  /** What `signUp` does once the form is valid and the key is derived. */
  function RegisterWithKey(lib: Library, form: SignupForm, key: seq<byte>, keyPair: KeyPair): SignupOutcome {
    var decryptionKey := DecryptionKey(key);
    var authenticationKey := AuthenticationKey(key);
    match WrapPrivateKey(lib, decryptionKey, keyPair.privateKey)
    case None => WrapFailed
    case Some(encPrivateKey) =>
      SignupPost(SignupUrl, SignupBody(form.displayName, form.username, authenticationKey,
                                       Base64Encode(keyPair.publicKey), encPrivateKey))
  }

  /** `signUp`: a password mismatch and then a missing username or password
      reject before anything is derived; otherwise the key is derived, split
      and used to wrap the freshly generated private key (the key pair is
      the input standing for `generateKeyPair`'s randomness). */
  function SignUp(lib: Library, form: SignupForm, keyPair: KeyPair): SignupOutcome {
    if form.password != form.repeatPassword then Rejected(PasswordMismatch)
    else if form.username == "" || form.password == "" then Rejected(CredentialsMissing)
    else RegisterWithKey(lib, form, DeriveKey(lib, form.password, SignupScrypt), keyPair)
  }

  /** A mismatched repeat password is rejected first, whatever the library
      and the key pair: no derivation or request takes place. */
  lemma SignUpRejectsMismatch(lib1: Library, lib2: Library, form: SignupForm, kp1: KeyPair, kp2: KeyPair)
    requires form.password != form.repeatPassword
    ensures SignUp(lib1, form, kp1) == SignUp(lib2, form, kp2) == Rejected(PasswordMismatch)
  {
  }

  /** With matching passwords, an empty username or password is rejected,
      whatever the library and the key pair. */
  lemma SignUpRejectsMissing(lib1: Library, lib2: Library, form: SignupForm, kp1: KeyPair, kp2: KeyPair)
    requires form.password == form.repeatPassword
    requires form.username == "" || form.password == ""
    ensures SignUp(lib1, form, kp1) == SignUp(lib2, form, kp2) == Rejected(CredentialsMissing)
  {
  }

  /** A valid form is posted to the registration URL: the body carries the
      display name, the username, the base64 of key bytes 16..32, the base64
      public key and the hex of the CBC-wrapped, PKCS#7-padded private key
      under key bytes 0..16 and a zero IV. Under aes-js's CBC contract the
      wrap always succeeds, and the wrapped key is a whole number of blocks
      longer than nothing: twice the padded length in hex digits. */
  lemma SignUpPosts(lib: Library, form: SignupForm, keyPair: KeyPair)
    requires ScryptKeepsLength(lib) && CbcLikeAesJs(lib)
    requires form.password == form.repeatPassword && form.username != "" && form.password != ""
    ensures var key := DeriveKey(lib, form.password, SignupScrypt);
      var wrapped := lib.cbcEncrypt(key[..16], Zeros(16), Pkcs7Pad(keyPair.privateKey));
      && |key| == 32
      && wrapped.Some?
      && SignUp(lib, form, keyPair) == SignupPost(SignupUrl, SignupBody(
           form.displayName, form.username, Base64Encode(key[16..32]),
           Base64Encode(keyPair.publicKey), HexFromBytes(wrapped.value)))
      && |SignUp(lib, form, keyPair).body.authenticationKey| == 24
      && |SignUp(lib, form, keyPair).body.encPrivateKey| == 2 * |Pkcs7Pad(keyPair.privateKey)|
  {
    var key := DeriveKey(lib, form.password, SignupScrypt);
    var padded := Pkcs7Pad(keyPair.privateKey);
    Pkcs7PadShape(keyPair.privateKey);
    var wrapped := lib.cbcEncrypt(key[..16], Zeros(16), padded);
    assert wrapped.Some? && |wrapped.value| == |padded|;
    HexFromBytesRoundTrip(wrapped.value);
    KeySplit(key);
  }

  /** The request body depends on the 32-byte key only through its
      authentication half and the wrapped private key, and on the private
      key only through the wrapped private key: two runs that agree on
      those, and on the public key, send the same body, however their
      decryption keys and private keys differ. */
  lemma RegisterSendsNoSecret(lib: Library, form: SignupForm, key1: seq<byte>, key2: seq<byte>, kp1: KeyPair, kp2: KeyPair)
    requires Slice(key1, 16, 32) == Slice(key2, 16, 32)
    requires kp1.publicKey == kp2.publicKey
    requires WrapPrivateKey(lib, DecryptionKey(key1), kp1.privateKey) == WrapPrivateKey(lib, DecryptionKey(key2), kp2.privateKey)
    ensures RegisterWithKey(lib, form, key1, kp1) == RegisterWithKey(lib, form, key2, kp2)
  {
  }

  // ---------------------------------------------------------------------
  // Login
  // ---------------------------------------------------------------------

  /** The JSON body of the login request. */
  datatype LoginBody = LoginBody(username: string, authenticationKey: string)

  datatype LoginPost = LoginPost(url: string, body: LoginBody)

  /** `login`: no validation; the key is derived and its authentication
      half posted with the username, for every username and password. */
  function Login(lib: Library, username: string, password: string): (r: LoginPost)
    ensures r.url == LoginUrl && r.body.username == username
  {
    var key := DeriveKey(lib, password, LoginScrypt);
    LoginPost(LoginUrl, LoginBody(username, Base64Encode(Slice(key, 16, 32))))
  }

  /** Login and registration use the same salt and scrypt parameters, so a
      password gives the authentication key at login that registration
      sent. */
  lemma LoginMatchesSignUp(lib: Library, form: SignupForm, keyPair: KeyPair)
    requires SignUp(lib, form, keyPair).SignupPost?
    ensures Login(lib, form.username, form.password).body
         == LoginBody(SignUp(lib, form, keyPair).body.username, SignUp(lib, form, keyPair).body.authenticationKey)
  {
    assert LoginScrypt == SignupScrypt;
  }

  /** The login body depends on the password only through the
      authentication half of the derived key: two passwords whose keys
      share bytes 16..32 send the same body, whatever their first halves. */
  lemma LoginSendsNoDecryptionKey(lib: Library, username: string, pw1: string, pw2: string)
    requires Slice(DeriveKey(lib, pw1, LoginScrypt), 16, 32) == Slice(DeriveKey(lib, pw2, LoginScrypt), 16, 32)
    ensures Login(lib, username, pw1) == Login(lib, username, pw2)
  {
  }

  /** The login authentication key is 24 base64 characters. */
  lemma LoginKeyLength(lib: Library, username: string, password: string)
    requires ScryptKeepsLength(lib)
    ensures |Login(lib, username, password).body.authenticationKey| == 24
  {
    var key := DeriveKey(lib, password, LoginScrypt);
    KeySplit(key);
  }
}
