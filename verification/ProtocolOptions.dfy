/** The control-plane choices shared by client and probe (common/s3_protocol.hpp). */
module ProtocolOptions {
  /** How the RDMA descriptor travels: as it is, or in Base64. */
  datatype TokenEncoding = Verbatim | Base64
}
