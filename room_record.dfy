/**
 * One room of the culling engine: its root transform and the renderers and lights found below it, fixed when
 * the record is made, and the two properties the services change, the cached centre and the render state.
 */
module RoomRecords {
  import opened Geometry
  import opened Scene

  /** `RoomRenderState`. */
  datatype RenderState = Off | On

  /** `root ? root.position : Vector3.zero`. */
  function RootPosition(root: int, live: seq<bool>, position: seq<Vec3>): (r: Vec3)
    ensures 0 <= root < |live| && live[root] && root < |position| ==> r == position[root]
    ensures !(0 <= root < |live| && live[root]) ==> r == Zero
  {
    if 0 <= root < |live| && live[root] && root < |position| then position[root] else Zero
  }

  /** `RoomRendererRecord`: `Root`, `Renderers` and `Lights` have getters only; `Center` and `RenderState` are set later. */
  class RoomRendererRecord {
    const root: int
    const renderers: seq<int>
    const lights: seq<int>
    var center: Vec3
    var renderState: RenderState

    /** A new record starts Off, centred on its root, or on the origin without one. */
    constructor (root: int, renderers: seq<int>, lights: seq<int>, tt: TransformTable)
      requires tt.Valid()
      ensures this.root == root && this.renderers == renderers && this.lights == lights
      ensures center == RootPosition(root, tt.live, tt.position) && renderState == Off
    {
      this.root := root;
      this.renderers := renderers;
      this.lights := lights;
      center := if tt.IsLive(root) then tt.position[root] else Zero;
      renderState := Off;
    }
  }
}
