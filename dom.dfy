/** The part of a browser form control the two scripts read and write. */
module Dom {
  /** An `<input>` or `<select>`: its current value and its custom validity message. */
  class InputField {
    var value: string
    /** The message set by `setCustomValidity`; "" means valid. */
    var customValidity: string

    constructor(value: string)
      ensures this.value == value && customValidity == ""
    {
      this.value := value;
      customValidity := "";
    }
  }
}
