/** Which page a message is about: the physical surface and the navigation it was taken under. */
module SurfaceBinding {

  datatype Binding = Binding(
    desktopEpoch: string,
    windowId: string,
    surfaceId: string,
    surfaceRevision: nat,
    tabId: string,
    webContentsId: nat,
    targetId: string,
    browserContextId: string,
    navigationRevision: nat)

  /** The same surface, whatever document it shows. */
  predicate SamePhysical(left: Binding, right: Binding) {
    && left.desktopEpoch == right.desktopEpoch
    && left.windowId == right.windowId
    && left.surfaceId == right.surfaceId
    && left.surfaceRevision == right.surfaceRevision
    && left.tabId == right.tabId
    && left.webContentsId == right.webContentsId
    && left.targetId == right.targetId
    && left.browserContextId == right.browserContextId
  }

  /** All nine fields agree. */
  predicate SameBinding(left: Binding, right: Binding)
    ensures SameBinding(left, right) <==> left == right
  {
    && left.desktopEpoch == right.desktopEpoch
    && left.windowId == right.windowId
    && left.surfaceId == right.surfaceId
    && left.surfaceRevision == right.surfaceRevision
    && left.tabId == right.tabId
    && left.webContentsId == right.webContentsId
    && left.targetId == right.targetId
    && left.browserContextId == right.browserContextId
    && left.navigationRevision == right.navigationRevision
  }

  /** The same physical surface: everything agrees but the document. */
  lemma SamePhysicalIff(left: Binding, right: Binding)
    ensures SamePhysical(left, right) <==> left == right.(navigationRevision := left.navigationRevision)
  {
  }
}
