/** What the browser runtime contributes to the core besides the functions
    modelled in the other modules: octets and the DOMException names that the
    core's calls can throw. */
module Platform {

  /** One octet, as an element of a `Uint8Array`. */
  type byte = x: int | 0 <= x < 256

  /** The exceptions raised by `atob`/`btoa`, `JSON.parse`, WebCrypto and
      `localStorage.setItem`. */
  datatype DomError =
    | InvalidCharacterError   // atob on text that is not Base64, btoa on a char above U+00FF
    | SyntaxError             // JSON.parse on text that is not a JSON key object
    | DataError               // importKey on a JWK that fails the checks of the AES-GCM import
    | InvalidAccessError      // a key used for an operation it was not created for, or exported when not extractable
    | OperationError          // AES-GCM decryption whose authentication tag does not verify
    | QuotaExceededError      // localStorage.setItem refused by the storage backend
}
