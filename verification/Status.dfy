/** The kernel's common result codes (include/error.h). */
module Status {
  datatype Status = Ok | Generic | Invalid | NoMem | NotFound | Busy | Denied | Unsupported | Timeout
}
