/** Limits of the NFS version 3 protocol (RFC 1813) and of the server (src/nfs.h). */
module Protocol {
  /** The size of the buffers for paths. */
  const NFS_MAXPATHLEN: nat := 1024

  /** The largest file handle in bytes, section 2.4 of RFC 1813. */
  const NFS3_FHSIZE: nat := 64
}
