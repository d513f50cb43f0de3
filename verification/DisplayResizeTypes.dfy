/** What a resize request to the server came to (session/rdp_display_resize_types.h). */
module DisplayResizeTypes {

  datatype ResizeStatus = Sent | Deferred | Unchanged | Unsupported | Failed

  datatype ResizeResult = ResizeResult(status: ResizeStatus, normalizedWidth: nat, normalizedHeight: nat,
                                       sentWidth: nat, sentHeight: nat)
}
