/** The constants of `pkg/consts/consts.go`. */
module ShareConstants {
  import opened Basics

  const ShareSize: nat := 256
  const NamespaceSize: nat := 8
  const ShareReservedBytes: nat := 1
  const TxShareSize: nat := ShareSize - NamespaceSize - ShareReservedBytes
  const MsgShareSize: nat := ShareSize - NamespaceSize
  const MaxSquareSize: nat := 128
  const MaxShareCount: nat := MaxSquareSize * MaxSquareSize
  const MinShareCount: nat := 1

  const TxNamespace: Bytes := [0, 0, 0, 0, 0, 0, 0, 1]
  const IntermediateStateRootsNamespace: Bytes := [0, 0, 0, 0, 0, 0, 0, 2]
  const EvidenceNamespace: Bytes := [0, 0, 0, 0, 0, 0, 0, 3]
  const MaxReservedNamespace: Bytes := [0, 0, 0, 0, 0, 0, 0, 255]
  const TailPaddingNamespace: Bytes := [255, 255, 255, 255, 255, 255, 255, 254]
}
