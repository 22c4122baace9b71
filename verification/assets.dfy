/** The renderer's drawable component (src/engine/model.rs), reduced to what the
    render bridge inspects. Vertex data, textures and the matrix maths behind
    `Instance::to_raw` are abstract: an instance is an opaque placement and its raw
    form records which placement it was derived from. */
module Assets {

  /** One placed copy of a model; position and rotation stand in for the float vectors. */
  datatype Instance = Instance(position: (int, int, int), rotation: (int, int, int, int))

  /** The GPU-ready per-instance record (model and normal matrices in the source). */
  datatype InstanceRaw = InstanceRaw(source: Instance)

  datatype Mesh = Mesh(name: string, material: nat)

  datatype Material = Material(name: string)

  /** A loaded model: its meshes and materials, the instances to draw, and the
      instance buffer last uploaded for them. */
  datatype Model = Model(
    meshes: seq<Mesh>,
    materials: seq<Material>,
    instances: seq<Instance>,
    instanceBuffer: seq<InstanceRaw>)

  /** The raw form of one instance. */
  function ToRaw(i: Instance): InstanceRaw
  {
    InstanceRaw(i)
  }

  /** The instance data derived from an instance list: one raw record per instance, in order. */
  function InstanceData(instances: seq<Instance>): (r: seq<InstanceRaw>)
    ensures |r| == |instances|
    ensures forall k :: 0 <= k < |r| ==> r[k] == ToRaw(instances[k])
  {
    if |instances| == 0 then [] else [ToRaw(instances[0])] + InstanceData(instances[1..])
  }

  /** The model with its instance buffer rebuilt from its current instances. */
  function Regenerate(m: Model): (r: Model)
    ensures r.meshes == m.meshes && r.materials == m.materials && r.instances == m.instances
    ensures |r.instanceBuffer| == |m.instances|
    ensures forall k :: 0 <= k < |m.instances| ==> r.instanceBuffer[k] == ToRaw(m.instances[k])
  {
    m.(instanceBuffer := InstanceData(m.instances))
  }

  /** A `u32` cast (`as u32`): the value modulo 2^32. */
  function AsU32(n: nat): (r: nat)
    ensures r < 0x1_0000_0000
    ensures n < 0x1_0000_0000 ==> r == n
    ensures exists q: nat :: n == q * 0x1_0000_0000 + r
  {
    var r := n % 0x1_0000_0000;
    assert n == (n / 0x1_0000_0000) * 0x1_0000_0000 + r;
    r
  }
}
