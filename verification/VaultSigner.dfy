/** The Vault-backed signer: key material from the store, claims from the caller. */
module VaultSigner {
  import opened Models
  import opened Text
  import opened Codec
  import opened VaultStore
  import opened Claims

  /** What a signer needs: the private key, and the key id unless that is to be derived from the public key. */
  datatype SigningMaterial = SigningMaterial(privateKeyPem: string, keyId: Option<string>)

  predicate NonBlankText(data: Secret, key: string) {
    Field(data, key).Text? && Strip(Field(data, key).text) != ""
  }

  function Material(stored: Option<Secret>): Result<SigningMaterial> {
    if stored.None? || !NonBlankText(stored.value, "private_key_pem") then Err(SigningKeyUnavailable)
    else
      var keyId := if NonBlankText(stored.value, "kid") then Some(Field(stored.value, "kid").text) else None;
      Ok(SigningMaterial(Field(stored.value, "private_key_pem").text, keyId))
  }

  predicate SaysText(data: Secret, key: string, text: string) {
    key in data && data[key] == Text(text) && HasInk(text)
  }

  /** The material is the stored private key, and the stored key id if there is one that is not blank. */
  ghost predicate HoldsMaterial(data: Secret, material: SigningMaterial) {
    && SaysText(data, "private_key_pem", material.privateKeyPem)
    && (material.keyId.Some? ==> SaysText(data, "kid", material.keyId.value))
    && (material.keyId.None? ==> forall kid :: !SaysText(data, "kid", kid))
  }

  lemma MaterialIff(data: Secret, material: SigningMaterial)
    ensures Material(Some(data)) == Ok(material) <==> HoldsMaterial(data, material)
    ensures Material(Some(data)).Err? <==> forall pem :: !SaysText(data, "private_key_pem", pem)
  {
    TextSaid(data, "private_key_pem");
    TextSaid(data, "kid");
    hide SaysText;
  }

  lemma TextSaid(data: Secret, key: string)
    ensures NonBlankText(data, key) <==> exists text :: SaysText(data, key, text)
    ensures forall text | SaysText(data, key, text) :: Field(data, key) == Text(text)
    ensures NonBlankText(data, key) ==> SaysText(data, key, Field(data, key).text)
  {
    if key in data && data[key].Text? {
      StripBlankIff(data[key].text);
      assert NonBlankText(data, key) ==> SaysText(data, key, data[key].text);
    }
  }

  /** The signer as token minting sees it, when this is stored at the signing path. */
  function SigningWith(stored: Option<Secret>, encode: (SigningMaterial, ClaimSet) -> string,
                       sha256: string -> string, issuer: string, defaultLifetime: int): Signing
  {
    Signing(claims => match Material(stored) case Err(_) => None case Ok(material) => Some(encode(material, claims)),
            sha256, issuer, defaultLifetime)
  }

  class VaultTokenSigner {
    const client: VaultClient
    const path: string
    ghost const key: Option<Secret>

    /** The path still holds what it held when the signer was made. */
    ghost predicate Valid()
      reads client
    {
      Lookup(client.secrets, path) == key
    }

    constructor (client: VaultClient, path: string)
      ensures Valid() && this.client == client && this.path == path && key == Lookup(client.secrets, path)
    {
      this.client, this.path, key := client, path, Lookup(client.secrets, path);
    }

    /** `_load_signing_material`: read anew for every token. */
    method LoadSigningMaterial() returns (r: Result<SigningMaterial>)
      requires Valid()
      ensures r == Material(key)
    {
      var secret := client.ReadSecret(path);
      if secret.None? {
        return Err(SigningKeyUnavailable);
      }
      var pem := Field(secret.value, "private_key_pem");
      if !pem.Text? || Strip(pem.text) == "" {
        return Err(SigningKeyUnavailable);
      }
      var kid := Field(secret.value, "kid");
      r := Ok(SigningMaterial(pem.text, if kid.Text? && Strip(kid.text) != "" then Some(kid.text) else None));
    }

    /** `sign_token`: the stored key decides whether there is a text at all. */
    method SignToken(claims: ClaimSet, encode: (SigningMaterial, ClaimSet) -> string, sha256: string -> string,
                     issuer: string, defaultLifetime: int)
      returns (r: Option<string>)
      requires Valid()
      ensures r == SigningWith(key, encode, sha256, issuer, defaultLifetime).sign(claims)
      ensures r.None? <==> key.None? || !NonBlankText(key.value, "private_key_pem")
      ensures r.Some? ==> exists material ::
                HoldsMaterial(key.value, material) && r == Some(encode(material, claims))
    {
      var material := LoadSigningMaterial();
      if key.Some? && material.Ok? {
        MaterialIff(key.value, material.value);
      }
      r := if material.Ok? then Some(encode(material.value, claims)) else None;
    }
  }
}
